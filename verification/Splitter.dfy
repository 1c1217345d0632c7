// The per-connection splitter of the client-to-bus byte stream: forwards the handshake as it
// arrives, then cuts the message stream into whole frames.

module Splitter {
  import opened Prelude
  import opened Frames
  import opened Sasl

  // Byte range of one frame inside an outbound chunk.
  datatype Range = Range(start: nat, end: nat)

  datatype FeedOutcome = FeedOutcome(outbound: bytes, frameRanges: seq<Range>)

  datatype BrokerError = SaslFailed(sasl: SaslError) | FrameFailed(frame: FrameError)

  datatype Phase = Auth | Messages

  datatype State = State(phase: Phase, authAccumulator: bytes, msgBuf: bytes)

  const INITIAL := State(Auth, [], [])

  // ---------------------------------------------------------------------
  // Cutting a buffer into frames
  // ---------------------------------------------------------------------

  datatype Tiling = Tiling(frames: seq<bytes>, rest: bytes, bad: Option<FrameError>)

  function Cut(buf: bytes): Tiling
    decreases |buf|
  {
    match BytesNeeded(buf)
    case Err(e) => Tiling([], buf, Some(e))
    case Ok(None) => Tiling([], buf, None)
    case Ok(Some(total)) =>
      if |buf| < total then Tiling([], buf, None)
      else
        var t := Cut(buf[total..]);
        Tiling([buf[..total]] + t.frames, t.rest, t.bad)
  }

  predicate WholeFrame(f: bytes) {
    BytesNeeded(f) == Ok(Some(|f|))
  }

  ghost predicate AllWhole(frames: seq<bytes>) {
    forall i :: 0 <= i < |frames| ==> WholeFrame(frames[i])
  }

  // Holds no complete frame, and nothing known to be malformed.
  predicate Unfinished(buf: bytes) {
    match BytesNeeded(buf)
    case Err(_) => false
    case Ok(None) => true
    case Ok(Some(total)) => |buf| < total
  }

  // Reference: any division into whole frames and an unfinished rest.
  ghost predicate Tiles(buf: bytes, frames: seq<bytes>, rest: bytes) {
    && buf == Concat(frames) + rest
    && AllWhole(frames)
    && Unfinished(rest)
  }

  lemma FrameAtFront(buf: bytes, total: nat)
    requires BytesNeeded(buf) == Ok(Some(total)) && total <= |buf|
    ensures WholeFrame(buf[..total])
  {
    assert buf == buf[..total] + buf[total..];
    BytesNeededPrefix(buf[..total], buf[total..]);
  }

  lemma {:induction false} CutTiles(buf: bytes)
    ensures buf == Concat(Cut(buf).frames) + Cut(buf).rest
    ensures AllWhole(Cut(buf).frames)
    ensures Cut(buf).bad.None? <==> Unfinished(Cut(buf).rest)
    ensures Cut(buf).bad.Some? ==> BytesNeeded(Cut(buf).rest) == Err(Cut(buf).bad.value)
    decreases |buf|
  {
    var need := BytesNeeded(buf);
    if need.Ok? && need.value.Some? && need.value.value <= |buf| {
      var total := need.value.value;
      FrameAtFront(buf, total);
      CutTiles(buf[total..]);
      CutStep(buf, total);
      TilesCons(buf[..total], Cut(buf[total..]));
      Halves(buf, total);
    }
  }

  lemma Halves(buf: bytes, n: nat)
    requires n <= |buf|
    ensures buf[..n] + buf[n..] == buf
  {}

  lemma CutStep(buf: bytes, total: nat)
    requires BytesNeeded(buf) == Ok(Some(total)) && total <= |buf|
    ensures var t := Cut(buf[total..]);
            Cut(buf) == Tiling([buf[..total]] + t.frames, t.rest, t.bad)
  {}

  lemma TilesCons(head: bytes, t: Tiling)
    requires WholeFrame(head) && AllWhole(t.frames)
    ensures AllWhole([head] + t.frames)
    ensures Concat([head] + t.frames) + t.rest == head + (Concat(t.frames) + t.rest)
  {
    ConcatCons(head, t.frames);
    Assoc(head, Concat(t.frames), t.rest);
  }

  lemma {:induction false} CutOfTiles(frames: seq<bytes>, rest: bytes)
    requires AllWhole(frames)
    ensures Cut(Concat(frames) + rest) == Tiling(frames + Cut(rest).frames, Cut(rest).rest, Cut(rest).bad)
    decreases |frames|
  {
    var buf := Concat(frames) + rest;
    if frames == [] {
      assert buf == rest;
      assert [] + Cut(rest).frames == Cut(rest).frames;
    } else {
      var f, more := frames[0], Concat(frames[1..]) + rest;
      Assoc(f, Concat(frames[1..]), rest);
      assert buf == f + more;
      BytesNeededPrefix(f, more);
      assert buf[..|f|] == f && buf[|f|..] == more;
      CutOfTiles(frames[1..], rest);
      assert [f] + frames[1..] == frames;
      Assoc([f], frames[1..], Cut(rest).frames);
    }
  }

  // A buffer divides into whole frames and an unfinished rest in one way only.
  lemma TilingIsUnique(buf: bytes, frames: seq<bytes>, rest: bytes)
    ensures Tiles(buf, frames, rest) <==> Cut(buf) == Tiling(frames, rest, None)
  {
    CutTiles(buf);
    if Tiles(buf, frames, rest) {
      CutOfTiles(frames, rest);
      assert Cut(rest) == Tiling([], rest, None);
      assert frames + [] == frames;
    }
  }

  // Cutting may stop and resume at any point of the stream.
  lemma CutResumes(a: bytes, b: bytes)
    ensures Cut(a).bad.None? ==>
            Cut(a + b) == var t := Cut(Cut(a).rest + b);
                          Tiling(Cut(a).frames + t.frames, t.rest, t.bad)
    ensures Cut(a).bad.Some? ==> Cut(a + b).bad == Cut(a).bad
  {
    var t := Cut(a);
    CutTiles(a);
    Assoc(Concat(t.frames), t.rest, b);
    CutOfTiles(t.frames, t.rest + b);
    if t.bad.Some? {
      BytesNeededPrefix(t.rest, b);
    }
  }

  // ---------------------------------------------------------------------
  // One feed
  // ---------------------------------------------------------------------

  function Ranges(offset: nat, frames: seq<bytes>): (rs: seq<Range>)
    ensures |rs| == |frames|
    decreases |frames|
  {
    if frames == [] then []
    else [Range(offset, offset + |frames[0]|)] + Ranges(offset + |frames[0]|, frames[1..])
  }

  function FeedMessages(authTail: bytes, buf: bytes): (State, Result<FeedOutcome, BrokerError>) {
    var t := Cut(buf);
    (State(Messages, [], t.rest),
     if t.bad.Some? then Err(FrameFailed(t.bad.value))
     else Ok(FeedOutcome(authTail + Concat(t.frames), Ranges(|authTail|, t.frames))))
  }

  function Feed(s: State, chunk: bytes): (State, Result<FeedOutcome, BrokerError>) {
    if s.phase.Messages? then FeedMessages([], s.msgBuf + chunk)
    else
      var acc := s.authAccumulator + chunk;
      match FindBeginEnd(acc)
      case Failed(e) => (s.(authAccumulator := acc), Err(SaslFailed(e)))
      case Incomplete => (s.(authAccumulator := acc), Ok(FeedOutcome(chunk, [])))
      case Found(end) =>
        var n := SaturatingSub(end, |s.authAccumulator|);
        FeedMessages(chunk[..n], s.msgBuf + chunk[n..])
  }

  function SaturatingSub(a: nat, b: nat): nat {
    if a < b then 0 else a - b
  }

  // What every live connection keeps.
  predicate Valid(s: State) {
    match s.phase
    case Auth => FindBeginEnd(s.authAccumulator).Incomplete? && s.msgBuf == []
    case Messages => s.authAccumulator == [] && Unfinished(s.msgBuf)
  }

  // The frames a feed reports, as byte strings.
  function FramesOf(out: bytes, rs: seq<Range>): seq<bytes>
    decreases |rs|
  {
    if rs == [] then []
    else [if rs[0].start <= rs[0].end <= |out| then out[rs[0].start..rs[0].end] else []] + FramesOf(out, rs[1..])
  }

  // The end of the handshake is always inside the chunk that completes it, so the saturating
  // subtraction never clamps.
  lemma HandshakeEndsInChunk(acc: bytes, chunk: bytes)
    requires FindBeginEnd(acc).Incomplete? && FindBeginEnd(acc + chunk).Found?
    ensures |acc| < FindBeginEnd(acc + chunk).end <= |acc + chunk|
  {
    assert (acc + chunk)[..|acc|] == acc;
    ScanOfPrefix(acc + chunk, |acc|);
  }

  // Range `i` is one whole frame, follows the range before it (the first one follows `start`),
  // and the last one ends with the outbound bytes.
  ghost predicate RangeOk(out: bytes, rs: seq<Range>, start: nat, i: nat)
    requires i < |rs|
  {
    && rs[i].start <= rs[i].end <= |out|
    && WholeFrame(out[rs[i].start..rs[i].end])
    && rs[i].start == (if i == 0 then start else rs[i - 1].end)
    && (i == |rs| - 1 ==> rs[i].end == |out|)
  }

  ghost predicate RangesOk(out: bytes, rs: seq<Range>, start: nat) {
    forall i: nat :: i < |rs| ==> RangeOk(out, rs, start, i)
  }

  lemma RangesAreOk(tail: bytes, frames: seq<bytes>)
    requires AllWhole(frames)
    ensures RangesOk(tail + Concat(frames), Ranges(|tail|, frames), |tail|)
  {
    forall i: nat | i < |frames|
      ensures RangeOk(tail + Concat(frames), Ranges(|tail|, frames), |tail|, i)
    {
      RangesTile(tail, frames, i);
    }
  }

  lemma {:induction false} RangesTile(tail: bytes, frames: seq<bytes>, i: nat)
    requires i < |frames|
    ensures var rs, out := Ranges(|tail|, frames), tail + Concat(frames);
            && rs[i].start == (if i == 0 then |tail| else rs[i - 1].end)
            && rs[i].end == rs[i].start + |frames[i]| <= |out|
            && (i == |frames| - 1 ==> rs[i].end == |out|)
            && out[rs[i].start..rs[i].end] == frames[i]
    decreases i
  {
    var out := tail + Concat(frames);
    Assoc(tail, frames[0], Concat(frames[1..]));
    if i == 0 {
      assert out[|tail|..|tail| + |frames[0]|] == frames[0];
    } else {
      RangesTile(tail + frames[0], frames[1..], i - 1);
    }
  }

  // Where the message stream starts inside the chunk.
  function AuthPart(s: State, chunk: bytes): nat {
    if s.phase.Messages? then 0
    else
      match FindBeginEnd(s.authAccumulator + chunk)
      case Found(end) => SaturatingSub(end, |s.authAccumulator|)
      case _ => |chunk|
  }

  // A successful feed: the reported ranges are adjacent, start where the handshake's last bytes
  // end, reach the end of the outbound bytes, and each is one whole frame; input is conserved;
  // no complete frame is left behind.
  lemma FeedTiles(s: State, chunk: bytes)
    requires Valid(s) && Feed(s, chunk).1.Ok?
    ensures var (s', r) := Feed(s, chunk);
            var out, rs := r.value.outbound, r.value.frameRanges;
            && Valid(s')
            && s.msgBuf + chunk == out + s'.msgBuf
            && RangesOk(out, rs, AuthPart(s, chunk))
            && AuthPart(s, chunk) <= |chunk|
  {
    if s.phase.Messages? {
      FeedMessagesTiles([], s.msgBuf + chunk);
      assert [] + (s.msgBuf + chunk) == s.msgBuf + chunk;
    } else if FindBeginEnd(s.authAccumulator + chunk).Found? {
      HandshakeFeed(s, chunk);
      FeedMessagesTiles(chunk[..AuthPart(s, chunk)], chunk[AuthPart(s, chunk)..]);
    } else {
      assert [] + chunk == chunk + [];
    }
  }

  // The feed that completes the handshake.
  lemma HandshakeFeed(s: State, chunk: bytes)
    requires Valid(s) && s.phase.Auth? && FindBeginEnd(s.authAccumulator + chunk).Found?
    ensures var n := AuthPart(s, chunk);
            && n <= |chunk|
            && Feed(s, chunk) == FeedMessages(chunk[..n], chunk[n..])
            && s.msgBuf + chunk == chunk[..n] + chunk[n..]
            && NewFrames(s, chunk) == Cut(chunk[n..]).frames
  {
    HandshakeSplits(s.authAccumulator, chunk);
    NewFramesFound(s, chunk, FindBeginEnd(s.authAccumulator + chunk).end);
  }

  lemma HandshakeSplits(acc: bytes, chunk: bytes)
    requires FindBeginEnd(acc).Incomplete? && FindBeginEnd(acc + chunk).Found?
    ensures var end := FindBeginEnd(acc + chunk).end;
            var n := SaturatingSub(end, |acc|);
            && n <= |chunk|
            && (acc + chunk)[end..] == chunk[n..]
            && [] + chunk[n..] == chunk[n..]
            && [] + chunk == chunk[..n] + chunk[n..]
  {
    HandshakeEndsInChunk(acc, chunk);
    SplitAt(acc, chunk, FindBeginEnd(acc + chunk).end - |acc|);
  }

  lemma SplitAt(acc: bytes, chunk: bytes, n: nat)
    requires n <= |chunk|
    ensures (acc + chunk)[|acc| + n..] == chunk[n..]
    ensures [] + chunk[n..] == chunk[n..] && [] + chunk == chunk[..n] + chunk[n..]
  {}

  lemma NewFramesFound(s: State, chunk: bytes, end: nat)
    requires s.phase.Auth? && FindBeginEnd(s.authAccumulator + chunk) == Found(end)
    ensures NewFrames(s, chunk) == Cut((s.authAccumulator + chunk)[end..]).frames
  {}

  lemma FeedMessagesTiles(tail: bytes, buf: bytes)
    requires FeedMessages(tail, buf).1.Ok?
    ensures var (s', r) := FeedMessages(tail, buf);
            && Valid(s')
            && tail + buf == r.value.outbound + s'.msgBuf
            && RangesOk(r.value.outbound, r.value.frameRanges, |tail|)
  {
    var t := Cut(buf);
    CutTiles(buf);
    Assoc(tail, Concat(t.frames), t.rest);
    RangesAreOk(tail, t.frames);
  }

  // ---------------------------------------------------------------------
  // Whole runs, for every way of cutting the stream into chunks
  // ---------------------------------------------------------------------

  datatype FeedRun = Dead | Live(state: State, outbound: bytes, frames: seq<bytes>)

  // The frames of one feed, without going through the ranges.
  function NewFrames(s: State, chunk: bytes): seq<bytes> {
    if s.phase.Messages? then Cut(s.msgBuf + chunk).frames
    else
      match FindBeginEnd(s.authAccumulator + chunk)
      case Found(end) => Cut((s.authAccumulator + chunk)[end..]).frames
      case _ => []
  }

  function RunFeeds(chunks: seq<bytes>): FeedRun
    decreases |chunks|
  {
    if chunks == [] then Live(INITIAL, [], [])
    else
      match RunFeeds(chunks[..|chunks| - 1])
      case Dead => Dead
      case Live(s, out, frames) =>
        var chunk := chunks[|chunks| - 1];
        match Feed(s, chunk)
        case (_, Err(_)) => Dead
        case (s', Ok(o)) => Live(s', out + o.outbound, frames + NewFrames(s, chunk))
  }

  // `NewFrames` is what the feed's ranges denote.
  lemma NewFramesAreRanges(s: State, chunk: bytes)
    requires Valid(s) && Feed(s, chunk).1.Ok?
    ensures var o := Feed(s, chunk).1.value;
            FramesOf(o.outbound, o.frameRanges) == NewFrames(s, chunk)
  {
    if s.phase.Messages? {
      FramesOfRanges([], NewFrames(s, chunk));
    } else if FindBeginEnd(s.authAccumulator + chunk).Found? {
      HandshakeFeed(s, chunk);
      FramesOfRanges(chunk[..AuthPart(s, chunk)], NewFrames(s, chunk));
    }
  }

  lemma NewFramesWhole(s: State, chunk: bytes)
    ensures AllWhole(NewFrames(s, chunk))
  {
    CutTiles(s.msgBuf + chunk);
    var scan := FindBeginEnd(s.authAccumulator + chunk);
    if scan.Found? {
      CutTiles((s.authAccumulator + chunk)[scan.end..]);
    }
  }

  lemma FramesOfCons(tail: bytes, f: bytes, more: bytes, rs: seq<Range>)
    ensures FramesOf(tail + (f + more), [Range(|tail|, |tail| + |f|)] + rs) == [f] + FramesOf(tail + (f + more), rs)
  {
    assert (tail + (f + more))[|tail|..|tail| + |f|] == f;
    assert ([Range(|tail|, |tail| + |f|)] + rs)[1..] == rs;
  }

  lemma {:induction false} FramesOfRanges(tail: bytes, frames: seq<bytes>)
    ensures FramesOf(tail + Concat(frames), Ranges(|tail|, frames)) == frames
    decreases |frames|
  {
    if frames != [] {
      var f, rest := frames[0], frames[1..];
      Assoc(tail, f, Concat(rest));
      FramesOfRanges(tail + f, rest);
      FramesOfCons(tail, f, Concat(rest), Ranges(|tail| + |f|, rest));
      assert [f] + rest == frames;
    }
  }

  // The same stream in one piece.
  function Whole(stream: bytes): FeedRun {
    match FindBeginEnd(stream)
    case Failed(_) => Dead
    case Incomplete => Live(State(Auth, stream, []), stream, [])
    case Found(end) =>
      var t := Cut(stream[end..]);
      if t.bad.Some? then Dead
      else Live(State(Messages, [], t.rest), stream[..end] + Concat(t.frames), t.frames)
  }

  // The handshake ends so late that a chunk boundary can trip the 16 KiB guard.
  predicate LateHandshake(stream: bytes) {
    FindBeginEnd(stream).Found? && FindBeginEnd(stream).end > MAX_AUTH_BUFFER + 1
  }

  lemma WholeStep(stream: bytes, chunk: bytes)
    requires !LateHandshake(stream + chunk)
    ensures Whole(stream + chunk) ==
            match Whole(stream)
            case Dead => Dead
            case Live(s, out, frames) =>
              match Feed(s, chunk)
              case (_, Err(_)) => Dead
              case (s', Ok(o)) => Live(s', out + o.outbound, frames + NewFrames(s, chunk))
  {
    var all := stream + chunk;
    match FindBeginEnd(stream)
    case Failed(e) =>
      if e != AuthLineTooLong {
        ScanExtends(stream, chunk);
      } else if FindBeginEnd(all).Found? {
        assert all[..|stream|] == stream;
        ScanOfPrefix(all, |stream|);
      }
    case Incomplete =>
      FirstMessages(stream, chunk);
    case Found(end) =>
      ScanExtends(stream, chunk);
      LaterMessages(stream, chunk);
  }

  lemma FirstMessages(acc: bytes, chunk: bytes)
    requires FindBeginEnd(acc).Incomplete?
    ensures Whole(acc + chunk) ==
            match Feed(State(Auth, acc, []), chunk)
            case (_, Err(_)) => Dead
            case (s', Ok(o)) => Live(s', acc + o.outbound, [] + NewFrames(State(Auth, acc, []), chunk))
  {
    if FindBeginEnd(acc + chunk).Found? {
      HandshakeEndsInChunk(acc, chunk);
      HandshakeDone(acc, chunk);
    }
  }

  lemma HandshakeDone(acc: bytes, chunk: bytes)
    requires FindBeginEnd(acc + chunk).Found? && |acc| <= FindBeginEnd(acc + chunk).end
    ensures var end := FindBeginEnd(acc + chunk).end;
            var n := end - |acc|;
            var t := Cut((acc + chunk)[end..]);
            && [] + chunk[n..] == (acc + chunk)[end..]
            && (acc + chunk)[..end] + Concat(t.frames) == acc + (chunk[..n] + Concat(t.frames))
            && [] + t.frames == t.frames
  {
    var end := FindBeginEnd(acc + chunk).end;
    var n := end - |acc|;
    assert (acc + chunk)[..end] == acc + chunk[..n];
    Assoc(acc, chunk[..n], Concat(Cut((acc + chunk)[end..]).frames));
  }

  lemma LaterMessages(stream: bytes, chunk: bytes)
    requires FindBeginEnd(stream).Found? && FindBeginEnd(stream + chunk) == FindBeginEnd(stream)
    ensures Whole(stream + chunk) ==
            match Whole(stream)
            case Dead => Dead
            case Live(s, out, frames) =>
              match Feed(s, chunk)
              case (_, Err(_)) => Dead
              case (s', Ok(o)) => Live(s', out + o.outbound, frames + NewFrames(s, chunk))
  {
    var end := FindBeginEnd(stream).end;
    var a := stream[end..];
    assert (stream + chunk)[end..] == a + chunk && (stream + chunk)[..end] == stream[..end];
    CutResumes(a, chunk);
    if Cut(a).bad.None? {
      var t := Cut(Cut(a).rest + chunk);
      ConcatAppend(Cut(a).frames, t.frames);
      Assoc(stream[..end], Concat(Cut(a).frames), Concat(t.frames));
      assert [] + Concat(t.frames) == Concat(t.frames);
    }
  }

  // Any cutting of a stream whose handshake is not late gives the one-piece result: the same
  // outbound bytes, the same frames, the same leftover, or failure in both cases.
  lemma {:induction false} ChunkingIndependence(chunks: seq<bytes>)
    requires !LateHandshake(Concat(chunks))
    ensures RunFeeds(chunks) == Whole(Concat(chunks))
    decreases |chunks|
  {
    if chunks != [] {
      var most, last := chunks[..|chunks| - 1], chunks[|chunks| - 1];
      assert chunks == most + [last];
      ConcatSnoc(most, last);
      if LateHandshake(Concat(most)) {
        ScanExtends(Concat(most), last);
      }
      ChunkingIndependence(most);
      WholeStep(Concat(most), last);
    }
  }

  lemma RunOne(stream: bytes)
    ensures RunFeeds([stream]) == Whole(stream)
  {
    assert [stream][..0] == [];
    assert [] + stream == stream;
    FirstMessages([], stream);
    match Feed(INITIAL, stream) {
      case (_, Err(_)) =>
      case (s', Ok(o)) => assert [] + o.outbound == o.outbound;
    }
  }

  lemma RunTwo(a: bytes, b: bytes)
    requires RunFeeds([a]).Dead?
    ensures RunFeeds([a, b]).Dead?
  {
    assert [a, b][..1] == [a];
  }

  // The exact condition: two cuttings of one stream can differ only when the handshake ends
  // beyond the guard and the bytes after it hold no malformed prefix.
  lemma ChunkingIndependenceIff(stream: bytes)
    ensures (forall chunks: seq<bytes> :: Concat(chunks) == stream ==> RunFeeds(chunks) == Whole(stream))
            <==> !(LateHandshake(stream) && Cut(stream[FindBeginEnd(stream).end..]).bad.None?)
  {
    if !LateHandshake(stream) {
      forall chunks: seq<bytes> | Concat(chunks) == stream ensures RunFeeds(chunks) == Whole(stream) {
        ChunkingIndependence(chunks);
      }
    } else if Whole(stream).Live? {
      var a, b := stream[..MAX_AUTH_BUFFER + 1], stream[MAX_AUTH_BUFFER + 1..];
      ScanOfPrefix(stream, MAX_AUTH_BUFFER + 1);
      RunOne(a);
      RunTwo(a, b);
      assert Concat([a, b]) == a + Concat([a, b][1..]) == a + (b + []) == stream;
    } else {
      forall chunks: seq<bytes> | Concat(chunks) == stream ensures RunFeeds(chunks).Dead? {
        LateAndDead(chunks);
      }
    }
  }

  // A handshake with an authentication line longer than the guard.
  function LongHandshake(): bytes {
    [0] + Unlines([LongLine(), BEGIN])
  }

  function LongLine(): (line: bytes)
    ensures |line| == MAX_AUTH_BUFFER + 1
    ensures forall i :: 0 <= i < |line| ==> line[i] == 'A' as u8
  {
    seq(MAX_AUTH_BUFFER + 1, _ => 'A' as u8)
  }

  // Sent at once it is accepted; cut one byte past the guard it is refused.
  lemma LongHandshakeDisagrees()
    ensures var h := LongHandshake();
            && |h| > MAX_AUTH_BUFFER + 1
            && RunFeeds([h]).Live?
            && RunFeeds([h[..MAX_AUTH_BUFFER + 1], h[MAX_AUTH_BUFFER + 1..]]).Dead?
  {
    var line, h := LongLine(), LongHandshake();
    var lines := [line, BEGIN];
    assert lines[1..] == [BEGIN] && [BEGIN][1..] == [];
    assert line[..5][0] == 'A' as u8 && BEGIN[0] != 'A' as u8;
    assert HandshakeLines(lines) by {
      assert ValidLine(line) && !IsBeginLine(line) && ValidLine(BEGIN) && IsBeginLine(BEGIN);
    }
    assert |Unlines(lines)| == |line| + 2 + |Unlines([BEGIN])|;
    assert h[..|h|] == h;
    FoundIffHandshake(h, |h|);
    assert h[|h|..] == [];
    RunOne(h);
    ScanOfPrefix(h, MAX_AUTH_BUFFER + 1);
    RunOne(h[..MAX_AUTH_BUFFER + 1]);
    RunTwo(h[..MAX_AUTH_BUFFER + 1], h[MAX_AUTH_BUFFER + 1..]);
  }

  lemma {:induction false} LateAndDead(chunks: seq<bytes>)
    requires Whole(Concat(chunks)).Dead?
    ensures RunFeeds(chunks).Dead?
    decreases |chunks|
  {
    if chunks != [] && LateHandshake(Concat(chunks)) {
      LateRun(chunks);
    } else {
      ChunkingIndependence(chunks);
    }
  }

  // With a late handshake a run is either already dead or agrees with the one-piece result.
  lemma {:induction false} LateRun(chunks: seq<bytes>)
    ensures RunFeeds(chunks).Dead? || RunFeeds(chunks) == Whole(Concat(chunks))
    decreases |chunks|
  {
    if chunks != [] {
      var most, last := chunks[..|chunks| - 1], chunks[|chunks| - 1];
      assert chunks == most + [last];
      ConcatSnoc(most, last);
      LateRun(most);
      var stream := Concat(most);
      if RunFeeds(most).Live? {
        if FindBeginEnd(stream).Found? {
          ScanExtends(stream, last);
          LaterMessages(stream, last);
        } else {
          FirstMessages(stream, last);
        }
      }
    }
  }

  // Whatever the cutting and however late the handshake, a run that has not failed has done what
  // the uncut stream does.
  lemma LiveRunIsWhole(chunks: seq<bytes>)
    requires RunFeeds(chunks).Live?
    ensures RunFeeds(chunks) == Whole(Concat(chunks))
  {
    LateRun(chunks);
  }

  // ---------------------------------------------------------------------
  // The state machine of the code
  // ---------------------------------------------------------------------

  lemma {:induction false} RangesSnoc(offset: nat, frames: seq<bytes>, f: bytes)
    ensures Ranges(offset, frames + [f]) ==
            Ranges(offset, frames) + [Range(offset + |Concat(frames)|, offset + |Concat(frames)| + |f|)]
    decreases |frames|
  {
    if frames == [] {
      assert frames + [f] == [f];
      assert Ranges(offset, [f]) == [Range(offset, offset + |f|)] + Ranges(offset + |f|, [f][1..]);
    } else {
      var n, more := offset + |frames[0]|, frames[1..];
      RangesSnoc(n, more, f);
      assert frames + [f] == [frames[0]] + (more + [f]);
      RangesCons(offset, frames[0], more + [f]);
      RangesCons(offset, frames[0], more);
      ConcatCons(frames[0], more);
      assert frames == [frames[0]] + more;
      var end := n + |Concat(more)|;
      Assoc([Range(offset, n)], Ranges(n, more), [Range(end, end + |f|)]);
    }
  }

  lemma RangesCons(offset: nat, f: bytes, more: seq<bytes>)
    ensures Ranges(offset, [f] + more) == [Range(offset, offset + |f|)] + Ranges(offset + |f|, more)
  {
    assert ([f] + more)[1..] == more;
  }

  // Partway through the drain: `done` has been cut off and reported, `rest` is still to be cut.
  ghost predicate DrainSoFar(tail: bytes, buf: bytes, done: seq<bytes>, rest: bytes, out: bytes, rs: seq<Range>) {
    && Cut(buf) == Tiling(done + Cut(rest).frames, Cut(rest).rest, Cut(rest).bad)
    && out == tail + Concat(done)
    && rs == Ranges(|tail|, done)
  }

  lemma DrainStart(tail: bytes, buf: bytes)
    ensures DrainSoFar(tail, buf, [], buf, tail, [])
  {
    assert [] + Cut(buf).frames == Cut(buf).frames;
    assert tail + Concat<u8>([]) == tail;
  }

  lemma DrainOne(tail: bytes, buf: bytes, done: seq<bytes>, rest: bytes, out: bytes, rs: seq<Range>, total: nat)
    requires DrainSoFar(tail, buf, done, rest, out, rs)
    requires BytesNeeded(rest) == Ok(Some(total)) && total <= |rest|
    ensures DrainSoFar(tail, buf, done + [rest[..total]], rest[total..],
                       out + rest[..total], rs + [Range(|out|, |out| + total)])
  {
    var f := rest[..total];
    Assoc(done, [f], Cut(rest[total..]).frames);
    ConcatSnoc(done, f);
    Assoc(tail, Concat(done), f);
    RangesSnoc(|tail|, done, f);
  }

  lemma DrainEnd(tail: bytes, buf: bytes, done: seq<bytes>, rest: bytes, out: bytes, rs: seq<Range>)
    requires DrainSoFar(tail, buf, done, rest, out, rs)
    requires Unfinished(rest)
    ensures FeedMessages(tail, buf) == (State(Messages, [], rest), Ok(FeedOutcome(out, rs)))
  {
    assert done + [] == done;
  }

  lemma DrainBad(tail: bytes, buf: bytes, done: seq<bytes>, rest: bytes, out: bytes, rs: seq<Range>)
    requires DrainSoFar(tail, buf, done, rest, out, rs)
    requires BytesNeeded(rest).Err?
    ensures FeedMessages(tail, buf) == (State(Messages, [], rest), Err(FrameFailed(BytesNeeded(rest).error)))
  {}

  class ConnectionState {
    var clientPhase: Phase
    var authAccumulator: bytes
    var msgBuf: bytes

    function Abstract(): State
      reads this
    {
      State(clientPhase, authAccumulator, msgBuf)
    }

    constructor ()
      ensures Abstract() == INITIAL
    {
      clientPhase, authAccumulator, msgBuf := Auth, [], [];
    }

    method FeedFromClient(chunk: bytes) returns (r: Result<FeedOutcome, BrokerError>)
      requires Valid(Abstract())
      modifies this
      ensures (Abstract(), r) == Feed(old(Abstract()), chunk)
      ensures r.Ok? ==> Valid(Abstract())
    {
      if Feed(Abstract(), chunk).1.Ok? {
        FeedTiles(Abstract(), chunk);
      }
      var outbound: bytes, consumed := [], 0;
      if clientPhase.Auth? {
        var originalAuthLen := |authAccumulator|;
        authAccumulator := authAccumulator + chunk;
        var scan := ScanForBegin(authAccumulator);
        match scan {
          case Failed(e) =>
            return Err(SaslFailed(e));
          case Incomplete =>
            return Ok(FeedOutcome(chunk, []));
          case Found(end) =>
            var authBytesInChunk := SaturatingSub(end, originalAuthLen);
            outbound := chunk[..authBytesInChunk];
            consumed := authBytesInChunk;
            authAccumulator := [];
            clientPhase := Messages;
        }
      }
      if consumed < |chunk| {
        msgBuf := msgBuf + chunk[consumed..];
      }

      assert FeedMessages(outbound, msgBuf) == Feed(old(Abstract()), chunk) by {
        assert old(msgBuf) + [] == old(msgBuf);
      }
      r := CutFrames(outbound);
    }

    // The loop that moves every complete frame out of `msgBuf`.
    method CutFrames(authTail: bytes) returns (r: Result<FeedOutcome, BrokerError>)
      requires clientPhase.Messages? && authAccumulator == []
      modifies this
      ensures (Abstract(), r) == FeedMessages(authTail, old(msgBuf))
    {
      var outbound, ranges: seq<Range> := authTail, [];
      ghost var buf: bytes, done: seq<bytes> := msgBuf, [];
      DrainStart(authTail, buf);
      while msgBuf != []
        invariant DrainSoFar(authTail, buf, done, msgBuf, outbound, ranges)
        invariant clientPhase.Messages? && authAccumulator == []
        decreases |msgBuf|
      {
        match BytesNeeded(msgBuf) {
          case Err(e) =>
            DrainBad(authTail, buf, done, msgBuf, outbound, ranges);
            return Err(FrameFailed(e));
          case Ok(None) =>
            break;
          case Ok(Some(total)) =>
            if |msgBuf| < total {
              break;
            }
            DrainOne(authTail, buf, done, msgBuf, outbound, ranges, total);
            done := done + [msgBuf[..total]];
            var offset := |outbound|;
            outbound := outbound + msgBuf[..total];
            ranges := ranges + [Range(offset, offset + total)];
            msgBuf := msgBuf[total..];
        }
      }
      DrainEnd(authTail, buf, done, msgBuf, outbound, ranges);
      return Ok(FeedOutcome(outbound, ranges));
    }
  }
}
