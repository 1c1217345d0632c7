// Matching received file descriptors to the frames that declare them, and the upstream-to-client
// direction of the pump after authentication.

module Attribution {
  import opened Prelude
  import Wire
  import MessageLayout
  import opened Frames
  import opened Splitter
  import opened Outbox

  // ---------------------------------------------------------------------
  // Attaching descriptors to a list of frames
  // ---------------------------------------------------------------------

  // How many descriptors a frame declares; None when its header does not parse.
  type Counts = bytes -> Option<nat>

  function DeclaredFds(frame: bytes): Option<nat> {
    match Parse(frame)
    case Err(_) => None
    case Ok(f) => Some(if f.headers.unixFds.Some? then f.headers.unixFds.value else 0)
  }

  // It is what the header field for descriptors, number 9, says; none if there is no such field, and
  // unknown if the frame is no message.
  lemma DeclaredIsHeader(buf: bytes, f: Frame, items: seq<Wire.Val>)
    ensures MessageLayout.IsMessage(buf, f, items) ==>
              var said := MessageLayout.SaidNumber(items, 9);
              DeclaredFds(buf) == Some(if said.Some? then said.value else 0)
    ensures DeclaredFds(buf) == None <==>
            !exists g, fields :: MessageLayout.IsMessage(buf, g, fields)
  {
    if MessageLayout.IsMessage(buf, f, items) {
      MessageLayout.MessageIsParsed(buf, f, items);
    }
    if Parse(buf).Ok? {
      var fields := MessageLayout.ParsedIsMessage(buf);
    }
    if g, fields :| MessageLayout.IsMessage(buf, g, fields) {
      MessageLayout.MessageIsParsed(buf, g, fields);
    }
  }

  // The packet of each frame, and the descriptors left in the queue: a parsed frame takes as
  // many as it declares (fewer if the queue is short); a frame that does not parse takes none
  // and empties the queue. The laws below hold for any way of reading the counts.
  datatype Attached = Attached(packets: seq<OutPacket>, fds: seq<Fd>)

  function AttachOne(counts: Counts, frame: bytes, fds: seq<Fd>): (OutPacket, seq<Fd>) {
    match counts(frame)
    case None => (OutPacket(frame, []), [])
    case Some(n) =>
      var k := Min(n, |fds|);
      (OutPacket(frame, fds[..k]), fds[k..])
  }

  function Attach(counts: Counts, frames: seq<bytes>, fds: seq<Fd>): Attached
    decreases |frames|
  {
    if frames == [] then Attached([], fds)
    else
      var (p, left) := AttachOne(counts, frames[0], fds);
      var a := Attach(counts, frames[1..], left);
      Attached([p] + a.packets, a.fds)
  }

  lemma {:induction false} AttachAppend(counts: Counts, a: seq<bytes>, b: seq<bytes>, fds: seq<Fd>)
    ensures var x := Attach(counts, a, fds);
            var y := Attach(counts, b, x.fds);
            Attach(counts, a + b, fds) == Attached(x.packets + y.packets, y.fds)
    decreases |a|
  {
    if a == [] {
      assert a + b == b;
      assert [] + Attach(counts, b, fds).packets == Attach(counts, b, fds).packets;
    } else {
      var (p, left) := AttachOne(counts, a[0], fds);
      AttachAppend(counts, a[1..], b, left);
      assert (a + b)[0] == a[0] && (a + b)[1..] == a[1..] + b;
      var x := Attach(counts, a[1..], left);
      Assoc([p], x.packets, Attach(counts, b, x.fds).packets);
    }
  }

  // Packet by packet, the frames.
  ghost predicate Framed(packets: seq<OutPacket>, frames: seq<bytes>) {
    && |packets| == |frames|
    && forall i :: 0 <= i < |frames| ==> packets[i].data == frames[i]
  }

  // The packets carry exactly the frames.
  lemma {:induction false} AttachBytes(counts: Counts, frames: seq<bytes>, fds: seq<Fd>)
    ensures Framed(Attach(counts, frames, fds).packets, frames)
    ensures Bytes(Attach(counts, frames, fds).packets) == Concat(frames)
    decreases |frames|
  {
    if frames != [] {
      var (p, left) := AttachOne(counts, frames[0], fds);
      AttachBytes(counts, frames[1..], left);
      BytesCons(p, Attach(counts, frames[1..], left).packets);
    }
  }

  // ---------------------------------------------------------------------
  // The intended attribution: prefix sums of the declared counts
  // ---------------------------------------------------------------------

  ghost predicate AllParse(counts: Counts, frames: seq<bytes>) {
    forall i :: 0 <= i < |frames| ==> counts(frames[i]).Some?
  }

  function CountOf(counts: Counts, frame: bytes): nat {
    if counts(frame).Some? then counts(frame).value else 0
  }

  function Need(counts: Counts, frames: seq<bytes>): nat {
    if frames == [] then 0 else CountOf(counts, frames[0]) + Need(counts, frames[1..])
  }

  lemma {:induction false} NeedAppend(counts: Counts, a: seq<bytes>, b: seq<bytes>)
    ensures Need(counts, a + b) == Need(counts, a) + Need(counts, b)
    decreases |a|
  {
    if a == [] {
      assert a + b == b;
    } else {
      NeedAppend(counts, a[1..], b);
      assert (a + b)[0] == a[0] && (a + b)[1..] == a[1..] + b;
    }
  }

  // Frame `i` leaves with the arrived descriptors from the sum of the counts before it to the
  // sum including it.
  ghost predicate Sliced(counts: Counts, packets: seq<OutPacket>, frames: seq<bytes>, fds: seq<Fd>) {
    && |packets| == |frames|
    && Need(counts, frames) <= |fds|
    && forall i :: 0 <= i < |frames| ==> SliceAt(counts, packets[i], frames, fds, i)
  }

  ghost predicate SliceAt(counts: Counts, p: OutPacket, frames: seq<bytes>, fds: seq<Fd>, i: nat)
    requires i < |frames|
  {
    var lo, hi := Need(counts, frames[..i]), Need(counts, frames[..i]) + CountOf(counts, frames[i]);
    hi <= |fds| && p == OutPacket(frames[i], fds[lo..hi])
  }

  lemma {:induction false} AttachSlices(counts: Counts, frames: seq<bytes>, fds: seq<Fd>)
    requires AllParse(counts, frames) && Need(counts, frames) <= |fds|
    ensures Sliced(counts, Attach(counts, frames, fds).packets, frames, fds)
    ensures Attach(counts, frames, fds).fds == fds[Need(counts, frames)..]
    decreases |frames|
  {
    if frames != [] {
      var n := CountOf(counts, frames[0]);
      var (p, left) := AttachOne(counts, frames[0], fds);
      assert Min(n, |fds|) == n && left == fds[n..];
      AttachSlices(counts, frames[1..], left);
      var rest := Attach(counts, frames[1..], left).packets;
      forall i | 0 <= i < |frames| ensures SliceAt(counts, ([p] + rest)[i], frames, fds, i) {
        if i > 0 {
          assert SliceAt(counts, rest[i - 1], frames[1..], left, i - 1);
          SliceShift(counts, rest[i - 1], frames, fds, i);
        } else {
          assert frames[..0] == [];
        }
      }
      assert left[Need(counts, frames[1..])..] == fds[Need(counts, frames)..];
    }
  }

  lemma SliceShift(counts: Counts, p: OutPacket, frames: seq<bytes>, fds: seq<Fd>, i: nat)
    requires 0 < i < |frames| && CountOf(counts, frames[0]) <= |fds|
    requires SliceAt(counts, p, frames[1..], fds[CountOf(counts, frames[0])..], i - 1)
    ensures SliceAt(counts, p, frames, fds, i)
  {
    var n := CountOf(counts, frames[0]);
    assert frames[1..][..i - 1] == frames[..i][1..];
    var lo := Need(counts, frames[1..][..i - 1]);
    var hi := lo + CountOf(counts, frames[i]);
    assert Need(counts, frames[..i]) == n + lo;
    assert fds[n..][lo..hi] == fds[n + lo..n + hi];
  }

  // Descriptors that arrive early stay queued for later frames.
  lemma {:induction false} AttachEarly(counts: Counts, frames: seq<bytes>, fds: seq<Fd>, more: seq<Fd>)
    requires AllParse(counts, frames) && Need(counts, frames) <= |fds|
    ensures var a := Attach(counts, frames, fds);
            Attach(counts, frames, fds + more) == Attached(a.packets, a.fds + more)
    decreases |frames|
  {
    if frames != [] {
      var (p, left) := AttachOne(counts, frames[0], fds);
      AttachOneEarly(counts, frames[0], fds, more);
      AttachEarly(counts, frames[1..], left, more);
    }
  }

  lemma AttachOneEarly(counts: Counts, frame: bytes, fds: seq<Fd>, more: seq<Fd>)
    requires counts(frame).Some? && CountOf(counts, frame) <= |fds|
    ensures var (p, left) := AttachOne(counts, frame, fds);
            AttachOne(counts, frame, fds + more) == (p, left + more) && |left| == |fds| - CountOf(counts, frame)
  {
    var n := CountOf(counts, frame);
    assert Min(n, |fds|) == n && Min(n, |fds + more|) == n;
    assert (fds + more)[..n] == fds[..n] && (fds + more)[n..] == fds[n..] + more;
  }

  // No descriptor is invented, and a packet never carries more than its frame declares.
  function Carried(packets: seq<OutPacket>): seq<Fd> {
    if packets == [] then [] else packets[0].fds + Carried(packets[1..])
  }

  lemma {:induction false} CarriedAppend(a: seq<OutPacket>, b: seq<OutPacket>)
    ensures Carried(a + b) == Carried(a) + Carried(b)
    decreases |a|
  {
    if a == [] {
      assert a + b == b;
    } else {
      CarriedAppend(a[1..], b);
      assert (a + b)[0] == a[0] && (a + b)[1..] == a[1..] + b;
      Assoc(a[0].fds, Carried(a[1..]), Carried(b));
    }
  }

  lemma {:induction false} AttachConserves(counts: Counts, frames: seq<bytes>, fds: seq<Fd>)
    requires AllParse(counts, frames)
    ensures var a := Attach(counts, frames, fds); fds == Carried(a.packets) + a.fds
    decreases |frames|
  {
    if frames != [] {
      var (p, left) := AttachOne(counts, frames[0], fds);
      AttachConserves(counts, frames[1..], left);
      var a := Attach(counts, frames[1..], left);
      AttachOneConserves(counts, frames[0], fds);
      CarriedCons(p, a.packets);
      Assoc(p.fds, Carried(a.packets), a.fds);
    }
  }

  lemma AttachOneConserves(counts: Counts, frame: bytes, fds: seq<Fd>)
    requires counts(frame).Some?
    ensures var (p, left) := AttachOne(counts, frame, fds); fds == p.fds + left
  {}

  lemma CarriedCons(p: OutPacket, ps: seq<OutPacket>)
    ensures Carried([p] + ps) == p.fds + Carried(ps)
  {
    assert ([p] + ps)[1..] == ps;
  }

  // ---------------------------------------------------------------------
  // The upstream direction after authentication
  // ---------------------------------------------------------------------

  datatype Drained = Drained(packets: seq<OutPacket>, buf: bytes, fds: seq<Fd>)

  // One pass over the receive buffer: every complete frame becomes a packet; on a malformed
  // prefix the whole remainder is forwarded as one packet and the queued descriptors are closed.
  function Drain(counts: Counts, buf: bytes, fds: seq<Fd>): Drained {
    var t := Cut(buf);
    var a := Attach(counts, t.frames, fds);
    if t.bad.None? then Drained(a.packets, t.rest, a.fds)
    else Drained(a.packets + [OutPacket(t.rest, [])], [], [])
  }

  // Forwarding never depends on parsing: no byte is lost, added or reordered.
  lemma DrainTransparent(counts: Counts, buf: bytes, fds: seq<Fd>)
    ensures Bytes(Drain(counts, buf, fds).packets) + Drain(counts, buf, fds).buf == buf
  {
    var t := Cut(buf);
    var a := Attach(counts, t.frames, fds);
    CutTiles(buf);
    AttachBytes(counts, t.frames, fds);
    if t.bad.Some? {
      BytesAppend(a.packets, [OutPacket(t.rest, [])]);
      BytesCons(OutPacket(t.rest, []), []);
      assert [OutPacket(t.rest, [])] + [] == [OutPacket(t.rest, [])];
      assert t.rest + [] == t.rest;
      assert Bytes(Drain(counts, buf, fds).packets) + [] == Bytes(Drain(counts, buf, fds).packets);
    }
  }

  // One successful read: bytes and the descriptors that came with them.
  datatype Read = Read(data: bytes, fds: seq<Fd>)

  function ReadBytes(arrivals: seq<Read>): bytes
    decreases |arrivals|
  {
    if arrivals == [] then [] else ReadBytes(arrivals[..|arrivals| - 1]) + arrivals[|arrivals| - 1].data
  }

  function ReadFds(arrivals: seq<Read>): seq<Fd>
    decreases |arrivals|
  {
    if arrivals == [] then [] else ReadFds(arrivals[..|arrivals| - 1]) + arrivals[|arrivals| - 1].fds
  }

  function DrainRead(counts: Counts, d: Drained, r: Read): Drained {
    var e := Drain(counts, d.buf + r.data, d.fds + r.fds);
    e.(packets := d.packets + e.packets)
  }

  function UpstreamRun(counts: Counts, arrivals: seq<Read>): Drained
    decreases |arrivals|
  {
    if arrivals == [] then Drained([], [], [])
    else DrainRead(counts, UpstreamRun(counts, arrivals[..|arrivals| - 1]), arrivals[|arrivals| - 1])
  }

  // In every run, malformed or not, the bytes forwarded and the bytes still buffered are the
  // bytes received.
  lemma {:induction false} UpstreamTransparent(counts: Counts, arrivals: seq<Read>)
    ensures Bytes(UpstreamRun(counts, arrivals).packets) + UpstreamRun(counts, arrivals).buf == ReadBytes(arrivals)
    decreases |arrivals|
  {
    if arrivals != [] {
      var most, r := arrivals[..|arrivals| - 1], arrivals[|arrivals| - 1];
      var d := UpstreamRun(counts, most);
      UpstreamTransparent(counts, most);
      var e := Drain(counts, d.buf + r.data, d.fds + r.fds);
      DrainTransparent(counts, d.buf + r.data, d.fds + r.fds);
      BytesAppend(d.packets, e.packets);
      Assoc(Bytes(d.packets), Bytes(e.packets), e.buf);
      Assoc(Bytes(d.packets), d.buf, r.data);
    }
  }

  ghost predicate WellFormedStream(counts: Counts, stream: bytes) {
    Cut(stream).bad.None? && AllParse(counts, Cut(stream).frames)
  }

  // Up to every read, the descriptors the completed frames declare have arrived.
  ghost predicate InTime(counts: Counts, arrivals: seq<Read>) {
    forall j :: 0 <= j <= |arrivals| ==> InTimeAt(counts, arrivals, j)
  }

  ghost predicate InTimeAt(counts: Counts, arrivals: seq<Read>, j: nat)
    requires j <= |arrivals|
  {
    Need(counts, Cut(ReadBytes(arrivals[..j])).frames) <= |ReadFds(arrivals[..j])|
  }

  lemma CutGrows(a: bytes, b: bytes)
    requires Cut(a + b).bad.None?
    ensures Cut(a).bad.None?
    ensures var t := Cut(Cut(a).rest + b);
            t.bad.None? && Cut(a + b) == Tiling(Cut(a).frames + t.frames, t.rest, None)
  {
    CutResumes(a, b);
  }

  // The state after receiving `stream` and `fds`.
  ghost predicate RunState(counts: Counts, d: Drained, stream: bytes, fds: seq<Fd>) {
    && d.buf == Cut(stream).rest
    && Framed(d.packets, Cut(stream).frames)
    && fds == Carried(d.packets) + d.fds
  }

  lemma DrainConserves(counts: Counts, buf: bytes, fds: seq<Fd>)
    requires WellFormedStream(counts, buf)
    ensures RunState(counts, Drain(counts, buf, fds), buf, fds)
  {
    AttachBytes(counts, Cut(buf).frames, fds);
    AttachConserves(counts, Cut(buf).frames, fds);
  }

  lemma RunStateStep(counts: Counts, d: Drained, stream: bytes, fds: seq<Fd>, r: Read)
    requires RunState(counts, d, stream, fds) && WellFormedStream(counts, stream + r.data)
    ensures RunState(counts, DrainRead(counts, d, r), stream + r.data, fds + r.fds)
  {
    CutGrows(stream, r.data);
    var e := Drain(counts, d.buf + r.data, d.fds + r.fds);
    PrefixParses(counts, Cut(stream).frames, Cut(d.buf + r.data).frames);
    DrainConserves(counts, d.buf + r.data, d.fds + r.fds);
    CarriedMore(d.packets, d.fds, r.fds, e.packets, e.fds);
    FramedMore(d.packets, e.packets, Cut(stream).frames, Cut(d.buf + r.data).frames);
  }

  lemma CarriedMore(a: seq<OutPacket>, left: seq<Fd>, new_: seq<Fd>, b: seq<OutPacket>, rest: seq<Fd>)
    requires left + new_ == Carried(b) + rest
    ensures Carried(a) + left + new_ == Carried(a + b) + rest
  {
    CarriedAppend(a, b);
    Assoc(Carried(a), left, new_);
    Assoc(Carried(a), Carried(b), rest);
  }

  lemma FramedMore(a: seq<OutPacket>, b: seq<OutPacket>, fs: seq<bytes>, gs: seq<bytes>)
    requires Framed(a, fs) && Framed(b, gs)
    ensures Framed(a + b, fs + gs)
  {}

  // While the stream is well formed the packets are exactly its frames, however the reads cut
  // it, and descriptors are conserved.
  lemma {:induction false} UpstreamFrames(counts: Counts, arrivals: seq<Read>)
    requires WellFormedStream(counts, ReadBytes(arrivals))
    ensures RunState(counts, UpstreamRun(counts, arrivals), ReadBytes(arrivals), ReadFds(arrivals))
    decreases |arrivals|
  {
    if arrivals != [] {
      var most, r := arrivals[..|arrivals| - 1], arrivals[|arrivals| - 1];
      PrefixWellFormed(counts, ReadBytes(most), r.data);
      UpstreamFrames(counts, most);
      RunStateStep(counts, UpstreamRun(counts, most), ReadBytes(most), ReadFds(most), r);
    }
  }

  // Without malformed prefixes the packets are exactly the stream's frames, unparsable ones
  // included.
  lemma {:induction false} UpstreamFramed(counts: Counts, arrivals: seq<Read>)
    requires Cut(ReadBytes(arrivals)).bad.None?
    ensures var d, t := UpstreamRun(counts, arrivals), Cut(ReadBytes(arrivals));
            d.buf == t.rest && Framed(d.packets, t.frames)
    decreases |arrivals|
  {
    if arrivals != [] {
      var most, r := arrivals[..|arrivals| - 1], arrivals[|arrivals| - 1];
      var d := UpstreamRun(counts, most);
      CutGrows(ReadBytes(most), r.data);
      UpstreamFramed(counts, most);
      var e := Drain(counts, d.buf + r.data, d.fds + r.fds);
      AttachBytes(counts, Cut(d.buf + r.data).frames, d.fds + r.fds);
      FramedMore(d.packets, e.packets, Cut(ReadBytes(most)).frames, Cut(d.buf + r.data).frames);
    }
  }

  lemma PrefixWellFormed(counts: Counts, a: bytes, b: bytes)
    requires WellFormedStream(counts, a + b)
    ensures WellFormedStream(counts, a)
  {
    CutGrows(a, b);
    PrefixParses(counts, Cut(a).frames, Cut(Cut(a).rest + b).frames);
  }

  lemma PrefixParses(counts: Counts, a: seq<bytes>, b: seq<bytes>)
    requires AllParse(counts, a + b)
    ensures AllParse(counts, a) && AllParse(counts, b)
  {
    forall i | 0 <= i < |a| ensures counts(a[i]).Some? {
      assert (a + b)[i] == a[i];
    }
    forall i | 0 <= i < |b| ensures counts(b[i]).Some? {
      assert (a + b)[|a| + i] == b[i];
    }
  }

  // The run so far attached as if everything had arrived at once.
  ghost predicate AsOne(counts: Counts, d: Drained, stream: bytes, fds: seq<Fd>) {
    Attach(counts, Cut(stream).frames, fds) == Attached(d.packets, d.fds) && d.buf == Cut(stream).rest
  }

  lemma AsOneStep(counts: Counts, d: Drained, stream: bytes, fds: seq<Fd>, r: Read)
    requires AsOne(counts, d, stream, fds) && WellFormedStream(counts, stream + r.data)
    requires Need(counts, Cut(stream).frames) <= |fds|
    ensures AsOne(counts, DrainRead(counts, d, r), stream + r.data, fds + r.fds)
  {
    CutGrows(stream, r.data);
    var frames, buf := Cut(stream).frames, d.buf + r.data;
    PrefixParses(counts, frames, Cut(buf).frames);
    AttachMore(counts, frames, Cut(buf).frames, fds, r.fds, d.packets, d.fds);
  }

  lemma AttachMore(counts: Counts, frames: seq<bytes>, more: seq<bytes>, fds: seq<Fd>, new_: seq<Fd>,
          packets: seq<OutPacket>, left: seq<Fd>)
    requires AllParse(counts, frames) && Need(counts, frames) <= |fds|
    requires Attach(counts, frames, fds) == Attached(packets, left)
    ensures Attach(counts, frames + more, fds + new_) ==
            Attached(packets + Attach(counts, more, left + new_).packets, Attach(counts, more, left + new_).fds)
  {
    AttachEarly(counts, frames, fds, new_);
    AttachAppend(counts, frames, more, fds + new_);
  }

  lemma {:induction false} UpstreamAttaches(counts: Counts, arrivals: seq<Read>)
    requires WellFormedStream(counts, ReadBytes(arrivals)) && InTime(counts, arrivals)
    ensures AsOne(counts, UpstreamRun(counts, arrivals), ReadBytes(arrivals), ReadFds(arrivals))
    decreases |arrivals|
  {
    if arrivals != [] {
      var most, r := arrivals[..|arrivals| - 1], arrivals[|arrivals| - 1];
      PrefixWellFormed(counts, ReadBytes(most), r.data);
      forall j | 0 <= j <= |most| ensures InTimeAt(counts, most, j) {
        assert InTimeAt(counts, arrivals, j);
        assert most[..j] == arrivals[..j];
      }
      UpstreamAttaches(counts, most);
      assert InTimeAt(counts, most, |most|) && most[..|most|] == most;
      AsOneStep(counts, UpstreamRun(counts, most), ReadBytes(most), ReadFds(most), r);
    }
  }

  // The exact condition for right attribution upstream to client: for any way of cutting a
  // well-formed stream into reads, every frame leaves with its slice of the arrived descriptors
  // if and only if no frame is completed before its descriptors have arrived.
  lemma FdAttributionIff(counts: Counts, arrivals: seq<Read>)
    requires WellFormedStream(counts, ReadBytes(arrivals))
    ensures Sliced(counts, UpstreamRun(counts, arrivals).packets, Cut(ReadBytes(arrivals)).frames, ReadFds(arrivals))
            <==> InTime(counts, arrivals)
    ensures InTime(counts, arrivals) ==>
              UpstreamRun(counts, arrivals).fds == ReadFds(arrivals)[Need(counts, Cut(ReadBytes(arrivals)).frames)..]
  {
    var frames, fds := Cut(ReadBytes(arrivals)).frames, ReadFds(arrivals);
    if InTime(counts, arrivals) {
      assert InTimeAt(counts, arrivals, |arrivals|);
      assert arrivals[..|arrivals|] == arrivals;
      UpstreamAttaches(counts, arrivals);
      AttachSlices(counts, frames, fds);
    }
    if Sliced(counts, UpstreamRun(counts, arrivals).packets, frames, fds) {
      forall j | 0 <= j <= |arrivals| ensures InTimeAt(counts, arrivals, j) {
        SlicedIsInTime(counts, arrivals, j);
      }
    }
  }

  // A packet's descriptor count.
  ghost predicate FullCounts(counts: Counts, packets: seq<OutPacket>) {
    forall i :: 0 <= i < |packets| ==> |packets[i].fds| == CountOf(counts, packets[i].data)
  }

  lemma {:induction false} CountsAddUp(counts: Counts, packets: seq<OutPacket>, frames: seq<bytes>)
    requires Framed(packets, frames) && FullCounts(counts, packets)
    ensures |Carried(packets)| == Need(counts, frames)
    decreases |frames|
  {
    if frames != [] {
      CountsAddUp(counts, packets[1..], frames[1..]);
    }
  }

  lemma {:induction false} RunPrefix(counts: Counts, arrivals: seq<Read>, j: nat)
    requires j <= |arrivals|
    ensures UpstreamRun(counts, arrivals[..j]).packets <= UpstreamRun(counts, arrivals).packets
    ensures ReadBytes(arrivals[..j]) <= ReadBytes(arrivals)
    decreases |arrivals|
  {
    if j < |arrivals| {
      var most := arrivals[..|arrivals| - 1];
      RunPrefix(counts, most, j);
      assert most[..j] == arrivals[..j];
    } else {
      assert arrivals[..j] == arrivals;
    }
  }

  lemma SlicedIsInTime(counts: Counts, arrivals: seq<Read>, j: nat)
    requires j <= |arrivals| && WellFormedStream(counts, ReadBytes(arrivals))
    requires Sliced(counts, UpstreamRun(counts, arrivals).packets, Cut(ReadBytes(arrivals)).frames, ReadFds(arrivals))
    ensures InTimeAt(counts, arrivals, j)
  {
    var all, some := UpstreamRun(counts, arrivals).packets, UpstreamRun(counts, arrivals[..j]).packets;
    var frames := Cut(ReadBytes(arrivals)).frames;
    RunPrefix(counts, arrivals, j);
    var s, more := ReadBytes(arrivals[..j]), ReadBytes(arrivals)[|ReadBytes(arrivals[..j])|..];
    assert ReadBytes(arrivals) == s + more;
    CutGrows(s, more);
    PrefixParses(counts, Cut(s).frames, Cut(Cut(s).rest + more).frames);
    UpstreamFrames(counts, arrivals[..j]);
    forall i | 0 <= i < |some| ensures |some[i].fds| == CountOf(counts, some[i].data) {
      assert some[i] == all[i];
      assert SliceAt(counts, all[i], frames, ReadFds(arrivals), i);
    }
    CountsAddUp(counts, some, Cut(s).frames);
  }
}
