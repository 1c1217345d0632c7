// Every run of the recorder: requests, render ticks, finalize calls and the writer thread in any
// interleaving.

module RecorderRuns {
  import opened Prelude
  import opened ScreenRecorder

  datatype Event =
    | Screenshot(path: Path)
    | Record(path: Path, fps: u32)
    | Stop
    | Capture(size: Size, now: nat, env: Env)   // starts a render tick
    | Finalized(now: nat, mapped: bool)
    | WriterTakes
    | WriterDies

  // A finished recording with its encoder's history, and when it reported.
  datatype Ended = Ended(encoder: Encoder, interval: nat, event: FinishEvent, at: nat)

  // What a recording was asked to write, and when it started.
  datatype Begun = Begun(path: Path, at: nat)

  // `spawned` encoders exist so far, and `asked` is the path of the latest recording request;
  // `begun` remembers how each encoder started and `causes` what made it stop.
  datatype World = World(
    state: State,
    tick: nat,
    finalized: bool,
    clock: nat,
    spawned: nat,
    asked: Path,
    begun: map<nat, Begun>,
    causes: map<nat, FinishReason>,
    ended: seq<Ended>,
    discarded: seq<nat>)

  const START := World(Idle, 0, true, 0, 0, [], map[], map[], [], [])

  predicate Active(s: State) {
    s.Recording? || s.Stopping?
  }

  function OnEncoder(s: State, f: Encoder -> Encoder): State {
    match s
    case Recording(e, m, p, j) => Recording(f(e), m, p, j)
    case Stopping(e, m, p, r) => Stopping(f(e), m, p, r)
    case _ => s
  }

  function Kill(e: Encoder): Encoder {
    e.(alive := false)
  }

  // The new state; a recording that starts to close is remembered with what closed it.
  function Enter(w: World, s: State, cause: FinishReason): World {
    w.(state := s,
       causes := if w.state.Recording? && s.Stopping? then w.causes[s.encoder.id := cause] else w.causes)
  }

  // A screenshot request drops an encoder that is running or closing.
  function AfterScreenshot(w: World, path: Path): World {
    w.(state := ScreenshotRequested(path),
       discarded := if Active(w.state) then w.discarded + [w.state.encoder.id] else w.discarded)
  }

  function AfterCapture(w: World, size: Size, now: nat, env: Env): World {
    var s := CaptureFrame(w.state, size, now, w.tick + 1, w.spawned, env);
    var w' := if w.state.RecordingRequested? && s.Recording? then Started(w, now) else w;
    Enter(w', s, Resize).(tick := w.tick + 1, finalized := false, clock := now)
  }

  function Started(w: World, now: nat): World {
    w.(spawned := w.spawned + 1, begun := w.begun[w.spawned := Begun(w.asked, now)])
  }

  function AfterFinalize(w: World, now: nat, mapped: bool): World {
    var (s, r) := Finalize(w.state, now, w.tick, mapped);
    Enter(w, s, EncoderError).(
      finalized := true, clock := now,
      ended := if r.Some? then w.ended + [EndOf(w, r.value.0, r.value.1, now)] else w.ended)
  }

  function EndOf(w: World, e: Encoder, event: FinishEvent, now: nat): Ended
    requires Active(w.state)
  {
    Ended(e, w.state.meta.frameInterval, event, now)
  }

  function Step(w: World, ev: Event): World {
    match ev
    case Screenshot(path) => AfterScreenshot(w, path)
    case Record(path, fps) => Enter(w, RequestRecording(w.state, path, fps), Replaced).(asked := path)
    case Stop => Enter(w, StopRecording(w.state), User)
    case Capture(size, now, env) => AfterCapture(w, size, now, env)
    case Finalized(now, mapped) => AfterFinalize(w, now, mapped)
    case WriterTakes => w.(state := OnEncoder(w.state, Take))
    case WriterDies => w.(state := OnEncoder(w.state, Kill))
  }

  function Run(events: seq<Event>): World
    decreases |events|
  {
    if events == [] then START else Step(Run(events[..|events| - 1]), events[|events| - 1])
  }

  // The host finalizes at most once a render tick, and the clock does not go back.
  predicate FairStep(w: World, ev: Event) {
    match ev
    case Capture(_, now, _) => now >= w.clock
    case Finalized(now, _) => now >= w.clock && !w.finalized
    case _ => true
  }

  ghost predicate FairAt(events: seq<Event>, i: nat)
    requires i < |events|
  {
    FairStep(Run(events[..i]), events[i])
  }

  ghost predicate Fair(events: seq<Event>) {
    forall i :: 0 <= i < |events| ==> FairAt(events, i)
  }

  lemma FairPrefix(events: seq<Event>)
    requires events != [] && Fair(events)
    ensures Fair(events[..|events| - 1])
  {
    var most := events[..|events| - 1];
    forall i | 0 <= i < |most| ensures FairAt(most, i) {
      assert FairAt(events, i) && most[..i] == events[..i];
    }
  }

  // ---------------------------------------------------------------------
  // One encoder's history
  // ---------------------------------------------------------------------

  // Pushed frames are in capture order, each once, each pushed in a later tick than the one that
  // captured it, and any three in a row span at least the frame interval.
  ghost predicate GoodPushes(ps: seq<Push>, size: Size, interval: nat) {
    && (forall i :: 0 <= i < |ps| ==> ps[i].shot.tick < ps[i].tick && ps[i].shot.size == size)
    && (forall i, j :: 0 <= i < j < |ps| ==> ps[i].shot.tick < ps[j].shot.tick && ps[i].at <= ps[j].at)
    && (forall i, j :: 0 <= i && j == i + 2 && j < |ps| ==> ps[j].at - ps[i].at >= interval)
  }

  function QueuedShot(p: Push): seq<Shot> {
    if p.queued then [p.shot] else []
  }

  // The pushed frames that were not dropped, in order.
  function Accepted(ps: seq<Push>): seq<Shot> {
    FlatMap(QueuedShot, ps)
  }

  ghost predicate GoodQueue(e: Encoder) {
    && e.bytesPerFrame == ByteCount(e.size)
    && |e.queue| <= WRITER_QUEUE_DEPTH
    && Accepted(e.pushes) == e.received + e.queue
    && |Accepted(e.pushes)| + e.dropped == |e.pushes|
  }

  // A frame of the encoder's size is never refused for its byte count.
  lemma PushKeepsQueue(e: Encoder, shot: Shot, mapped: bool, tick: nat, now: nat)
    requires GoodQueue(e) && shot.size == e.size
    ensures var r := MapAndPush(e, shot, mapped, tick, now);
            && r != Err(SizeMismatch)
            && (r.Ok? ==>
                  && GoodQueue(r.value)
                  && r.value.pushes == e.pushes + [Push(shot, tick, now, |e.queue| < WRITER_QUEUE_DEPTH)]
                  && r.value.id == e.id && r.value.size == e.size)
  {
    var p := Push(shot, tick, now, |e.queue| < WRITER_QUEUE_DEPTH);
    FlatMapAppend(QueuedShot, e.pushes, [p]);
    FlatMapOne(QueuedShot, p);
    Assoc(e.received, e.queue, [shot]);
    assert Accepted(e.pushes) + [] == Accepted(e.pushes);
  }

  // Only a queue of three drops a frame; any other takes it as its last.
  lemma OnlyAFullQueueDrops(e: Encoder, shot: Shot, mapped: bool, tick: nat, now: nat)
    requires GoodQueue(e) && MapAndPush(e, shot, mapped, tick, now).Ok?
    ensures var e' := MapAndPush(e, shot, mapped, tick, now).value;
            if |e.queue| == 3 then e'.dropped == e.dropped + 1 && e'.queue == e.queue
            else e'.dropped == e.dropped && e'.queue == e.queue + [shot]
  {
    assert |e.queue| <= WRITER_QUEUE_DEPTH;
  }

  lemma TakeKeepsQueue(e: Encoder)
    requires GoodQueue(e)
    ensures GoodQueue(Take(e)) && GoodQueue(Kill(e)) && GoodQueue(Close(e))
  {
    if e.queue != [] {
      Assoc(e.received, [e.queue[0]], e.queue[1..]);
      assert [e.queue[0]] + e.queue[1..] == e.queue;
    }
    assert (e.received + e.queue) + [] == e.received + e.queue;
  }

  // ---------------------------------------------------------------------
  // The pipeline
  // ---------------------------------------------------------------------

  function LastAt(ps: seq<Push>): Option<nat> {
    if ps == [] then None else Some(ps[|ps| - 1].at)
  }

  // A frame waiting to be pushed: newer than everything pushed, of the right size, and captured at
  // least an interval after the push `back` places from the end.
  ghost predicate Waiting(ps: seq<Push>, size: Size, interval: nat, p: Option<Shot>, back: nat, clock: nat)
    requires back > 0
  {
    p.Some? ==>
      && p.value.size == size
      && p.value.at <= clock
      && (forall i :: 0 <= i < |ps| ==> ps[i].shot.tick < p.value.tick)
      && (|ps| >= back ==> p.value.at - ps[|ps| - back].at >= interval)
  }

  ghost predicate GoodEncoder(e: Encoder, m: Meta, tick: nat, clock: nat) {
    && GoodQueue(e)
    && GoodPushes(e.pushes, e.size, m.frameInterval)
    && m.framesWritten == |e.pushes|
    && m.size == e.size
    && Before(e.pushes, tick, clock)
    && After(e.pushes, m.startedAt, clock)
  }

  // Nothing is pushed before the recording starts.
  ghost predicate After(ps: seq<Push>, start: nat, clock: nat) {
    start <= clock && forall i :: 0 <= i < |ps| ==> start <= ps[i].at
  }

  ghost predicate Before(ps: seq<Push>, tick: nat, clock: nat) {
    forall i :: 0 <= i < |ps| ==> ps[i].at <= clock && ps[i].tick <= tick
  }

  // A frame rotated into place was captured before the current tick, unless this tick's finalize
  // has already run.
  predicate Rotated(p: Option<Shot>, tick: nat, finalized: bool) {
    p.Some? ==> p.value.tick < tick || (p.value.tick == tick && finalized)
  }

  // A frame captured in this tick or before, still to be rotated.
  predicate Captured(p: Option<Shot>, j: Option<Shot>, tick: nat, finalized: bool) {
    j.Some? ==> !finalized && j.value.tick <= tick && (p.Some? ==> p.value.tick < j.value.tick)
  }

  ghost predicate StateOk(s: State, tick: nat, finalized: bool, clock: nat) {
    match s
    case Recording(e, m, p, j) =>
      && GoodEncoder(e, m, tick, clock)
      && m.lastFrameAt == LastAt(e.pushes)
      && Waiting(e.pushes, e.size, m.frameInterval, p, 2, clock) && Rotated(p, tick, finalized)
      && Waiting(e.pushes, e.size, m.frameInterval, j, 1, clock) && Captured(p, j, tick, finalized)
    case Stopping(e, m, p, _) =>
      GoodEncoder(e, m, tick, clock) && Waiting(e.pushes, e.size, m.frameInterval, p, 2, clock)
          && Rotated(p, tick, finalized)
    case _ => true
  }

  ghost predicate PipelineInv(w: World) {
    StateOk(w.state, w.tick, w.finalized, w.clock)
  }

  lemma LaterEncoder(e: Encoder, m: Meta, tick: nat, clock: nat, tick': nat, clock': nat)
    requires GoodEncoder(e, m, tick, clock) && tick <= tick' && clock <= clock'
    ensures GoodEncoder(e, m, tick', clock')
  {}

  lemma LaterWaiting(ps: seq<Push>, size: Size, interval: nat, p: Option<Shot>, back: nat, clock: nat, clock': nat)
    requires back > 0 && Waiting(ps, size, interval, p, back, clock) && clock <= clock'
    ensures Waiting(ps, size, interval, p, back, clock')
  {}

  // A due capture joins the pipeline.
  lemma DueWaits(ps: seq<Push>, m: Meta, shot: Shot, tick: nat, clock: nat)
    requires GoodPushes(ps, m.size, m.frameInterval) && Before(ps, tick, clock)
    requires m.lastFrameAt == LastAt(ps) && Due(m, shot.at) && clock <= shot.at && tick < shot.tick
        && shot.size == m.size
    ensures Waiting(ps, m.size, m.frameInterval, Some(shot), 1, shot.at)
  {}

  lemma PushGrows(ps: seq<Push>, size: Size, interval: nat, shot: Shot, tick: nat, clock: nat, now: nat, queued: bool)
    requires GoodPushes(ps, size, interval) && Before(ps, tick, clock)
    requires Waiting(ps, size, interval, Some(shot), 2, clock) && clock <= now && shot.tick < tick
    ensures GoodPushes(ps + [Push(shot, tick, now, queued)], size, interval)
    ensures Before(ps + [Push(shot, tick, now, queued)], tick, now)
  {}

  lemma PushKeeps(e: Encoder, m: Meta, shot: Shot, mapped: bool, tick: nat, clock: nat, now: nat)
    requires GoodEncoder(e, m, tick, clock) && Waiting(e.pushes, e.size, m.frameInterval, Some(shot), 2, clock)
    requires shot.tick < tick && clock <= now
    ensures var r := MapAndPush(e, shot, mapped, tick, now);
            && r != Err(SizeMismatch)
            && (r.Ok? ==>
                  && r.value.pushes == e.pushes + [Push(shot, tick, now, |e.queue| < WRITER_QUEUE_DEPTH)]
                  && r.value.size == e.size && r.value.id == e.id
                  && GoodEncoder(r.value, m.(framesWritten := m.framesWritten + 1, lastFrameAt := Some(now)), tick,
                      now))
  {
    PushKeepsQueue(e, shot, mapped, tick, now);
    PushGrows(e.pushes, e.size, m.frameInterval, shot, tick, clock, now, |e.queue| < WRITER_QUEUE_DEPTH);
  }

  // Rotating a fresh capture behind a push.
  lemma RotateAfterPush(ps: seq<Push>, size: Size, interval: nat, pushed: Push, j: Option<Shot>, clock: nat, now: nat)
    requires Waiting(ps, size, interval, j, 1, clock) && clock <= now
    requires j.Some? ==> pushed.shot.tick < j.value.tick
    ensures Waiting(ps + [pushed], size, interval, j, 2, now)
  {}

  lemma RotateWithoutPush(ps: seq<Push>, size: Size, interval: nat, j: Option<Shot>, clock: nat, now: nat)
    requires Waiting(ps, size, interval, j, 1, clock) && clock <= now && GoodPushes(ps, size, interval)
    ensures Waiting(ps, size, interval, j, 2, now)
  {}

  lemma TakeKeeps(s: State, tick: nat, finalized: bool, clock: nat)
    requires StateOk(s, tick, finalized, clock)
    ensures StateOk(OnEncoder(s, Take), tick, finalized, clock)
    ensures StateOk(OnEncoder(s, Kill), tick, finalized, clock)
  {
    if Active(s) {
      TakeKeepsQueue(s.encoder);
    }
  }

  lemma RequestsKeep(s: State, path: Path, fps: u32, tick: nat, finalized: bool, clock: nat)
    requires StateOk(s, tick, finalized, clock)
    ensures StateOk(RequestRecording(s, path, fps), tick, finalized, clock)
    ensures StateOk(StopRecording(s), tick, finalized, clock)
  {}

  lemma CaptureStart(w: World, size: Size, now: nat, env: Env)
    requires w.state.RecordingRequested?
    ensures PipelineInv(AfterCapture(w, size, now, env))
  {
    assert Accepted([]) == [];
  }

  lemma CaptureRunning(w: World, size: Size, now: nat, env: Env)
    requires PipelineInv(w) && now >= w.clock && w.state.Recording? && size == w.state.meta.size
    ensures PipelineInv(AfterCapture(w, size, now, env))
  {
    var e, m := w.state.encoder, w.state.meta;
    LaterEncoder(e, m, w.tick, w.clock, w.tick + 1, now);
    LaterWaiting(e.pushes, e.size, m.frameInterval, w.state.toPush, 2, w.clock, now);
    CaptureWaits(e, m, size, env, w.tick, w.clock, now);
  }

  lemma CaptureResized(w: World, size: Size, now: nat, env: Env)
    requires PipelineInv(w) && now >= w.clock && w.state.Recording? && size != w.state.meta.size
    ensures PipelineInv(AfterCapture(w, size, now, env))
  {
    var e, m := w.state.encoder, w.state.meta;
    LaterEncoder(e, m, w.tick, w.clock, w.tick + 1, now);
    LaterWaiting(e.pushes, e.size, m.frameInterval, w.state.toPush, 2, w.clock, now);
  }

  lemma CaptureWaits(e: Encoder, m: Meta, size: Size, env: Env, tick: nat, clock: nat, now: nat)
    requires GoodEncoder(e, m, tick, clock) && m.lastFrameAt == LastAt(e.pushes) && clock <= now && size == m.size
    ensures var j := if Due(m, now) then TryCapture(env, tick + 1, now, size) else None;
            Waiting(e.pushes, e.size, m.frameInterval, j, 1, now)
  {
    if Due(m, now) && env.captures {
      DueWaits(e.pushes, m, Shot(tick + 1, now, size), tick, clock);
    }
  }

  lemma CaptureStep(w: World, size: Size, now: nat, env: Env)
    requires PipelineInv(w) && now >= w.clock
    ensures PipelineInv(AfterCapture(w, size, now, env))
  {
    match w.state
    case RecordingRequested(_, _) => CaptureStart(w, size, now, env);
    case Recording(_, m, _, _) =>
      if size == m.size {
        CaptureRunning(w, size, now, env);
      } else {
        CaptureResized(w, size, now, env);
      }
    case Stopping(e, m, p, _) =>
      LaterEncoder(e, m, w.tick, w.clock, w.tick + 1, now);
      LaterWaiting(e.pushes, e.size, m.frameInterval, p, 2, w.clock, now);
    case _ =>
  }

  lemma FinalizeStep(w: World, now: nat, mapped: bool)
    requires PipelineInv(w) && now >= w.clock && !w.finalized
    ensures PipelineInv(AfterFinalize(w, now, mapped))
  {
    match w.state
    case Recording(_, _, None, _) => FinalizeEmpty(w, now, mapped);
    case Recording(_, _, Some(_), _) => FinalizePush(w, now, mapped);
    case _ =>
  }

  lemma FinalizeEmpty(w: World, now: nat, mapped: bool)
    requires PipelineInv(w) && now >= w.clock && !w.finalized && w.state.Recording? && w.state.toPush.None?
    ensures PipelineInv(AfterFinalize(w, now, mapped))
  {
    var e, m := w.state.encoder, w.state.meta;
    LaterEncoder(e, m, w.tick, w.clock, w.tick, now);
    RotateWithoutPush(e.pushes, e.size, m.frameInterval, w.state.justCaptured, w.clock, now);
  }

  lemma FinalizePush(w: World, now: nat, mapped: bool)
    requires PipelineInv(w) && now >= w.clock && !w.finalized && w.state.Recording? && w.state.toPush.Some?
    ensures PipelineInv(AfterFinalize(w, now, mapped))
  {
    var e, m, shot := w.state.encoder, w.state.meta, w.state.toPush.value;
    LaterEncoder(e, m, w.tick, w.clock, w.tick, now);
    PushKeeps(e, m, shot, mapped, w.tick, w.clock, now);
    var pushed := Push(shot, w.tick, now, |e.queue| < WRITER_QUEUE_DEPTH);
    RotateAfterPush(e.pushes, e.size, m.frameInterval, pushed, w.state.justCaptured, w.clock, now);
  }

  lemma StepKeepsPipeline(w: World, ev: Event)
    requires PipelineInv(w) && FairStep(w, ev)
    ensures PipelineInv(Step(w, ev))
  {
    match ev
    case Screenshot(_) =>
    case Record(path, fps) => RequestsKeep(w.state, path, fps, w.tick, w.finalized, w.clock);
    case Stop => RequestsKeep(w.state, [], 0, w.tick, w.finalized, w.clock);
    case Capture(size, now, env) => CaptureStep(w, size, now, env);
    case Finalized(now, mapped) => FinalizeStep(w, now, mapped);
    case WriterTakes => TakeKeeps(w.state, w.tick, w.finalized, w.clock);
    case WriterDies => TakeKeeps(w.state, w.tick, w.finalized, w.clock);
  }

  // What a finished recording's history keeps.
  ghost predicate GoodHistory(e: Encoder, interval: nat) {
    GoodQueue(e) && GoodPushes(e.pushes, e.size, interval)
  }

  ghost predicate EndedInv(w: World) {
    forall i :: 0 <= i < |w.ended| ==> EndedOk(w.ended[i])
  }

  ghost predicate EndedOk(x: Ended) {
    && GoodHistory(x.encoder, x.interval)
    && x.event.framesWritten == |x.encoder.pushes|
    && Within(x.encoder.pushes, x.event.duration)
  }

  // All the pushes lie within the duration.
  ghost predicate Within(ps: seq<Push>, duration: nat) {
    Span(ps) <= duration
  }

  lemma FlushKeeps(w: World, now: nat, mapped: bool)
    requires PipelineInv(w) && now >= w.clock && !w.finalized && w.state.Stopping?
    ensures var (e, n) := FlushLast(w.state.encoder, w.state.meta, w.state.toPush, mapped, w.tick, now);
            && GoodHistory(Close(e), w.state.meta.frameInterval) && n == |Close(e).pushes|
            && e.id == w.state.encoder.id
            && Within(Close(e).pushes, Since(now, w.state.meta.startedAt))
  {
    var e, m, p := w.state.encoder, w.state.meta, w.state.toPush;
    if p.Some? {
      PushKeeps(e, m, p.value, mapped, w.tick, w.clock, now);
    }
    TakeKeepsQueue(FlushLast(e, m, p, mapped, w.tick, now).0);
  }

  lemma {:induction false} RunPipeline(events: seq<Event>)
    requires Fair(events)
    ensures PipelineInv(Run(events)) && EndedInv(Run(events))
    decreases |events|
  {
    if events != [] {
      var n := |events| - 1;
      FairPrefix(events);
      RunPipeline(events[..n]);
      var w, ev := Run(events[..n]), events[n];
      assert FairAt(events, n);
      StepKeepsPipeline(w, ev);
      StepKeepsEnded(w, ev);
    }
  }

  lemma StepKeepsEnded(w: World, ev: Event)
    requires PipelineInv(w) && EndedInv(w) && FairStep(w, ev)
    ensures EndedInv(Step(w, ev))
  {
    if ev.Finalized? && w.state.Stopping? {
      FlushKeeps(w, ev.now, ev.mapped);
      EndsOk(w, ev.now, ev.mapped);
      OneMoreEnded(w.ended, Step(w, ev).ended);
    } else {
      SameEnded(w, ev);
    }
  }

  lemma SameEnded(w: World, ev: Event)
    requires !(ev.Finalized? && w.state.Stopping?)
    ensures Step(w, ev).ended == w.ended
  {
    if ev.Finalized? {
      FinalizeId(w.state, ev.now, w.tick, ev.mapped);
    }
  }

  lemma OneMoreEnded(xs: seq<Ended>, ys: seq<Ended>)
    requires |ys| == |xs| + 1 && ys[..|xs|] == xs && EndedOk(ys[|xs|])
    requires forall i :: 0 <= i < |xs| ==> EndedOk(xs[i])
    ensures forall i :: 0 <= i < |ys| ==> EndedOk(ys[i])
  {
    forall i | 0 <= i < |xs| ensures EndedOk(ys[i]) {
      assert ys[i] == xs[i];
    }
  }

  lemma EndsOk(w: World, now: nat, mapped: bool)
    requires w.state.Stopping?
    requires var (e, n) := FlushLast(w.state.encoder, w.state.meta, w.state.toPush, mapped, w.tick, now);
             && GoodHistory(Close(e), w.state.meta.frameInterval) && n == |Close(e).pushes|
             && Within(Close(e).pushes, Since(now, w.state.meta.startedAt))
    ensures var w' := Step(w, Finalized(now, mapped));
            |w'.ended| == |w.ended| + 1 && w'.ended[..|w.ended|] == w.ended && EndedOk(w'.ended[|w.ended|])
  {}

  // Over every run in which the host finalizes at most once a tick and the clock does not go
  // back: the frames pushed by the current recording and by every finished one are in capture
  // order, each once, never in the tick that captured them, of the recording's size; the writer
  // receives an in-order part of them, its queue never holds more than three, and every counted
  // frame was either accepted or dropped.
  lemma RecordingHistories(events: seq<Event>)
    requires Fair(events)
    ensures var w := Run(events);
            && (Active(w.state) ==>
                  && GoodHistory(w.state.encoder, w.state.meta.frameInterval)
                  && w.state.meta.framesWritten == |w.state.encoder.pushes|)
            && (forall i :: 0 <= i < |w.ended| ==> EndedOk(w.ended[i]))
  {
    RunPipeline(events);
  }

  // The byte-count check of the encoder never fires: no frame in the pipeline can be refused for
  // its size.
  lemma SizeMismatchUnreachable(events: seq<Event>, mapped: bool, now: nat)
    requires Fair(events) && Active(Run(events).state) && Run(events).state.toPush.Some?
    ensures var w := Run(events);
            MapAndPush(w.state.encoder, w.state.toPush.value, mapped, w.tick, now) != Err(SizeMismatch)
  {
    var w := Run(events);
    RunPipeline(events);
    PushKeepsQueue(w.state.encoder, w.state.toPush.value, mapped, w.tick, now);
  }

  // ---------------------------------------------------------------------
  // Rate
  // ---------------------------------------------------------------------

  lemma {:induction false} EverySecond(ps: seq<Push>, size: Size, interval: nat, k: nat)
    requires GoodPushes(ps, size, interval) && 2 * k < |ps|
    ensures ps[2 * k].at - ps[0].at >= k * interval
  {
    if k > 0 {
      EverySecond(ps, size, interval, k - 1);
      var i, j := 2 * (k - 1), 2 * k;
      assert ps[j].at - ps[i].at >= interval;
      assert k * interval == (k - 1) * interval + interval;
    }
  }

  // The time from the first push to the last.
  function Span(ps: seq<Push>): int {
    if ps == [] then 0 else ps[|ps| - 1].at - ps[0].at
  }

  // The most frames that fit into a length of time.
  function FrameLimit(span: int, interval: nat): int
    requires interval > 0
  {
    2 * (span / interval) + 2
  }

  // A recording whose frames span `T` writes at most 2 * floor(T / interval) + 2 of them.
  lemma RateBound(e: Encoder, interval: nat)
    requires GoodHistory(e, interval) && e.pushes != [] && interval > 0
    ensures Span(e.pushes) >= 0 && |e.pushes| <= FrameLimit(Span(e.pushes), interval)
  {
    var ps := e.pushes;
    var last := |ps| - 1;
    var k := last / 2;
    EverySecond(ps, e.size, interval, k);
    assert ps[2 * k].at <= ps[last].at;
    QuotientAtLeast(ps[last].at - ps[0].at, k, interval);
  }

  // A finished recording of the reported duration wrote at most
  // 2 * floor(duration / interval) + 2 frames.
  lemma FinishedRate(events: seq<Event>, i: nat)
    requires Fair(events) && i < |Run(events).ended| && Run(events).ended[i].interval > 0
    ensures var x := Run(events).ended[i];
            x.event.framesWritten <= FrameLimit(x.event.duration, x.interval)
  {
    RunPipeline(events);
    assert EndedOk(Run(events).ended[i]);
    EndedRate(Run(events).ended[i]);
  }

  lemma EndedRate(x: Ended)
    requires EndedOk(x) && x.interval > 0
    ensures x.event.framesWritten <= FrameLimit(x.event.duration, x.interval)
  {
    var ps := x.encoder.pushes;
    if ps != [] {
      RateBound(x.encoder, x.interval);
      LimitGrows(Span(ps), x.event.duration, x.interval);
    }
  }

  lemma LimitGrows(a: nat, b: nat, n: nat)
    requires n > 0 && a <= b
    ensures 0 < FrameLimit(a, n) <= FrameLimit(b, n)
  {
    QuotientTimes(a, n);
    QuotientAtLeast(b, a / n, n);
  }

  lemma QuotientTimes(a: nat, n: nat)
    requires n > 0
    ensures a / n >= 0 && (a / n) * n <= a
  {}

  lemma QuotientAtLeast(span: int, k: nat, interval: nat)
    requires interval > 0 && span >= k * interval
    ensures span / interval >= k
  {
    var q := span / interval;
    assert span < (q + 1) * interval;
    assert k * interval < (q + 1) * interval;
    SmallerFactor(k, q + 1, interval);
  }

  lemma SmallerFactor(a: int, b: int, n: nat)
    requires a * n < b * n
    ensures a < b
  {
    assert (b - a) * n > 0;
  }

  // ---------------------------------------------------------------------
  // Finish events
  // ---------------------------------------------------------------------

  function CountEnded(xs: seq<Ended>, id: nat): nat {
    if xs == [] then 0 else CountEnded(xs[..|xs| - 1], id) + (if xs[|xs| - 1].encoder.id == id then 1 else 0)
  }

  function CountIds(xs: seq<nat>, id: nat): nat {
    if xs == [] then 0 else CountIds(xs[..|xs| - 1], id) + (if xs[|xs| - 1] == id then 1 else 0)
  }

  function Current(s: State, id: nat): nat {
    if Active(s) && s.encoder.id == id then 1 else 0
  }

  // Every encoder ever started is in exactly one place, once.
  ghost predicate Accounted(w: World) {
    forall id: nat :: AccountedAt(w, id)
  }

  function Places(w: World, id: nat): nat {
    Current(w.state, id) + CountEnded(w.ended, id) + CountIds(w.discarded, id)
  }

  lemma CountEndedSnoc(xs: seq<Ended>, x: Ended, id: nat)
    ensures CountEnded(xs + [x], id) == CountEnded(xs, id) + if x.encoder.id == id then 1 else 0
  {
    assert (xs + [x])[..|xs|] == xs;
  }

  lemma CountIdsSnoc(xs: seq<nat>, x: nat, id: nat)
    ensures CountIds(xs + [x], id) == CountIds(xs, id) + if x == id then 1 else 0
  {
    assert (xs + [x])[..|xs|] == xs;
  }

  lemma FinalizeId(s: State, now: nat, tick: nat, mapped: bool)
    ensures var (s', r) := Finalize(s, now, tick, mapped);
            && (r.Some? <==> s.Stopping?)
            && (r.Some? ==> r.value.0.id == s.encoder.id && s' == Idle)
            && (s.Recording? ==> Active(s') && s'.encoder.id == s.encoder.id)
            && (!Active(s) ==> !Active(s'))
  {}

  // The id is accounted for.
  predicate AccountedAt(w: World, id: nat) {
    Places(w, id) == if id < w.spawned then 1 else 0
  }

  lemma FinalizeAccounts(w: World, now: nat, mapped: bool, id: nat)
    requires AccountedAt(w, id)
    ensures AccountedAt(AfterFinalize(w, now, mapped), id)
  {
    FinalizeId(w.state, now, w.tick, mapped);
    var r := Finalize(w.state, now, w.tick, mapped).1;
    if r.Some? {
      CountEndedSnoc(w.ended, EndOf(w, r.value.0, r.value.1, now), id);
    }
  }

  lemma ScreenshotAccounts(w: World, path: Path, id: nat)
    requires AccountedAt(w, id)
    ensures AccountedAt(AfterScreenshot(w, path), id)
  {
    if Active(w.state) {
      CountIdsSnoc(w.discarded, w.state.encoder.id, id);
    }
  }

  lemma CaptureAccounts(w: World, size: Size, now: nat, env: Env, id: nat)
    requires AccountedAt(w, id) && AccountedAt(w, w.spawned)
    ensures AccountedAt(AfterCapture(w, size, now, env), id)
  {}

  lemma StepAccounts(w: World, ev: Event, id: nat)
    requires AccountedAt(w, id) && AccountedAt(w, w.spawned)
    ensures AccountedAt(Step(w, ev), id)
  {
    match ev
    case Screenshot(path) => ScreenshotAccounts(w, path, id);
    case Capture(size, now, env) => CaptureAccounts(w, size, now, env, id);
    case Finalized(now, mapped) => FinalizeAccounts(w, now, mapped, id);
    case _ =>
  }

  lemma {:induction false} RunAccounts(events: seq<Event>)
    ensures Accounted(Run(events))
    decreases |events|
  {
    if events != [] {
      var n := |events| - 1;
      RunAccounts(events[..n]);
      forall id: nat ensures AccountedAt(Run(events), id) {
        assert AccountedAt(Run(events[..n]), id);
        StepAccounts(Run(events[..n]), events[n], id);
      }
    }
  }

  // How a recording started is what its report will say.
  ghost predicate OriginInv(w: World) {
    && (w.state.RecordingRequested? ==> w.state.path == w.asked)
    && (Active(w.state) ==> Origin(w, w.state.encoder.id, w.state.meta.path, w.state.meta.startedAt))
    && (forall id :: id in w.begun ==> id < w.spawned)
    && (forall i :: 0 <= i < |w.ended| ==> ReportKnown(w, w.ended[i]))
  }

  predicate Origin(w: World, id: nat, path: Path, at: nat) {
    id in w.begun && w.begun[id] == Begun(path, at)
  }

  ghost predicate ReportKnown(w: World, x: Ended) {
    && x.encoder.id in w.begun
    && x.event.path == w.begun[x.encoder.id].path
    && x.event.duration == Since(x.at, w.begun[x.encoder.id].at)
  }

  lemma StepKeepsOrigin(w: World, ev: Event)
    requires OriginInv(w)
    ensures OriginInv(Step(w, ev))
  {
    var w' := Step(w, ev);
    if ev.Finalized? {
      FinalizeId(w.state, ev.now, w.tick, ev.mapped);
    }
    forall i | 0 <= i < |w'.ended| ensures ReportKnown(w', w'.ended[i]) {
      if i < |w.ended| {
        assert ReportKnown(w, w.ended[i]);
      }
    }
  }

  lemma {:induction false} RunOrigin(events: seq<Event>)
    ensures OriginInv(Run(events))
    decreases |events|
  {
    if events != [] {
      RunOrigin(events[..|events| - 1]);
      StepKeepsOrigin(Run(events[..|events| - 1]), events[|events| - 1]);
    }
  }

  // The reason a recording is stopping for, and the one it reported, is what stopped it.
  ghost predicate CausesInv(w: World) {
    && (w.state.Stopping? ==> w.state.encoder.id in w.causes && w.causes[w.state.encoder.id] == w.state.reason)
    && (forall i :: 0 <= i < |w.ended| ==> CauseKnown(w, w.ended[i]))
    && (w.state.Recording? ==> w.state.encoder.id !in w.causes)
    && (forall id :: id in w.causes ==> id < w.spawned)
    && (Active(w.state) ==> w.state.encoder.id < w.spawned)
    && (Active(w.state) ==> forall i :: 0 <= i < |w.ended| ==> w.ended[i].encoder.id != w.state.encoder.id)
  }

  ghost predicate CauseKnown(w: World, x: Ended) {
    x.encoder.id in w.causes && w.causes[x.encoder.id] == x.event.reason
  }

  lemma StepKeepsCauses(w: World, ev: Event)
    requires CausesInv(w)
    ensures CausesInv(Step(w, ev))
  {
    var w' := Step(w, ev);
    if ev.Finalized? {
      FinalizeId(w.state, ev.now, w.tick, ev.mapped);
    }
    forall i | 0 <= i < |w'.ended| ensures CauseKnown(w', w'.ended[i]) {
      if i < |w.ended| {
        assert CauseKnown(w, w.ended[i]);
      }
    }
    forall i | 0 <= i < |w.ended| ensures w.ended[i].encoder.id < w.spawned {
      assert CauseKnown(w, w.ended[i]);
    }
  }

  lemma {:induction false} RunCauses(events: seq<Event>)
    ensures CausesInv(Run(events))
    decreases |events|
  {
    if events != [] {
      RunCauses(events[..|events| - 1]);
      StepKeepsCauses(Run(events[..|events| - 1]), events[|events| - 1]);
    }
  }

  // A screenshot request while an encoder is running or closing.
  predicate Clobbers(w: World, ev: Event) {
    ev.Screenshot? && Active(w.state)
  }

  ghost predicate NeverClobbers(events: seq<Event>) {
    forall i :: 0 <= i < |events| ==> !ClobbersAt(events, i)
  }

  predicate ClobbersAt(events: seq<Event>, i: nat)
    requires i < |events|
  {
    Clobbers(Run(events[..i]), events[i])
  }

  lemma {:induction false} DiscardedIff(events: seq<Event>)
    ensures Run(events).discarded == [] <==> NeverClobbers(events)
    decreases |events|
  {
    if events != [] {
      var n := |events| - 1;
      DiscardedIff(events[..n]);
      NeverClobbersSnoc(events);
    }
  }

  lemma NeverClobbersSnoc(events: seq<Event>)
    requires events != []
    ensures var n := |events| - 1;
            NeverClobbers(events) <==> NeverClobbers(events[..n]) && !Clobbers(Run(events[..n]), events[n])
  {
    var n := |events| - 1;
    forall i | 0 <= i < n ensures ClobbersAt(events[..n], i) == ClobbersAt(events, i) {
      assert events[..n][..i] == events[..i];
    }
    assert ClobbersAt(events, n) == Clobbers(Run(events[..n]), events[n]);
  }

  // Every recording that was started and is no longer running or closing has reported exactly
  // once, unless a screenshot request came while it was: then, and only then, some recording
  // never reports.
  lemma FinishEventsIff(events: seq<Event>)
    ensures var w := Run(events);
            (forall id: nat :: id < w.spawned && Current(w.state, id) == 0 ==> CountEnded(w.ended, id) == 1)
            <==> NeverClobbers(events)
  {
    var w := Run(events);
    RunAccounts(events);
    DiscardedIff(events);
    if w.discarded != [] {
      var id := w.discarded[|w.discarded| - 1];
      assert CountIds(w.discarded, id) >= 1;
      assert AccountedAt(w, id);
      assert Current(w.state, id) == 0 && CountEnded(w.ended, id) == 0;
    } else {
      forall id: nat | id < w.spawned && Current(w.state, id) == 0 ensures CountEnded(w.ended, id) == 1 {
        assert AccountedAt(w, id);
      }
    }
  }

  // An input that fails: a screenshot asked for in the tick that started a recording. The recording
  // never reports.
  lemma ScreenshotLosesReport(path: Path, shot: Path, fps: u32, size: Size, env: Env)
    requires size.w > 0 && size.h > 0 && fps > 0 && env.spawns
    ensures var events := [Record(path, fps), Capture(size, 0, env), Screenshot(shot)];
            var w := Run(events);
            && Fair(events) && w.spawned == 1 && w.ended == [] && !Active(w.state)
  {
    var events := [Record(path, fps), Capture(size, 0, env), Screenshot(shot)];
    assert events[..2][..1] == events[..1] == [events[0]];
    assert Run([]) == START && events[..1][..0] == [];
    assert Run(events[..1]) == Step(START, events[0]);
    assert Run(events[..2]) == Step(Run(events[..1]), events[1]);
    forall i | 0 <= i < |events| ensures FairAt(events, i) {}
  }

  // What a report says: the path that was asked for, the time since the recording started, the
  // reason of the event that stopped it, and the number of frames pushed.
  lemma ReportsAreRight(events: seq<Event>, i: nat)
    requires Fair(events) && i < |Run(events).ended|
    ensures var w := Run(events);
            var x := w.ended[i];
            && x.encoder.id in w.begun && x.encoder.id in w.causes
            && x.event.path == w.begun[x.encoder.id].path
            && x.event.duration == Since(x.at, w.begun[x.encoder.id].at)
            && x.event.reason == w.causes[x.encoder.id]
            && x.event.framesWritten == |x.encoder.pushes| == |Accepted(x.encoder.pushes)| + x.encoder.dropped
  {
    RunCauses(events);
    RunOrigin(events);
    RunPipeline(events);
    var w := Run(events);
    assert CauseKnown(w, w.ended[i]) && ReportKnown(w, w.ended[i]) && EndedOk(w.ended[i]);
  }

  // A closing recording reports at the next finalize, whatever fails.
  lemma ReportsAtNextFinalize(events: seq<Event>, now: nat, mapped: bool)
    requires Run(events).state.Stopping?
    ensures var w, w' := Run(events), Step(Run(events), Finalized(now, mapped));
            && |w'.ended| == |w.ended| + 1 && w'.ended[..|w.ended|] == w.ended
            && w'.ended[|w.ended|].encoder.id == w.state.encoder.id
            && w'.state == Idle
  {
    FinalizeId(Run(events).state, now, Run(events).tick, mapped);
  }

  // ---------------------------------------------------------------------
  // What ends a recording
  // ---------------------------------------------------------------------

  // Why an event ends the running recording, if it does.
  function Ends(w: World, ev: Event): Option<FinishReason>
    requires w.state.Recording?
  {
    match ev
    case Stop => Some(User)
    case Record(_, _) => Some(Replaced)
    case Capture(size, _, _) => if size != w.state.meta.size then Some(Resize) else None
    case Finalized(_, mapped) =>
      if w.state.toPush.Some? && !(mapped && w.state.encoder.alive) then Some(EncoderError) else None
    case _ => None
  }

  lemma RunSnoc(events: seq<Event>, ev: Event)
    ensures Run(events + [ev]) == Step(Run(events), ev)
  {
    assert (events + [ev])[..|events|] == events;
  }

  // A running recording goes on exactly until one of these events (or a screenshot request): it
  // then closes for that reason, and reports it at the next finalize.
  lemma EndsIff(events: seq<Event>, ev: Event, now: nat, mapped: bool)
    requires Fair(events) && Run(events).state.Recording? && !ev.Screenshot?
    ensures var w, w1, w2 := Run(events), Run(events + [ev]), Run(events + [ev] + [Finalized(now, mapped)]);
            && Active(w1.state) && w1.state.encoder.id == w.state.encoder.id
            && (w1.state.Recording? <==> Ends(w, ev) == None)
            && (Ends(w, ev).Some? ==>
                  && w1.state.Stopping? && w1.state.reason == Ends(w, ev).value
                  && |w2.ended| == |w1.ended| + 1
                  && w2.ended[|w1.ended|].encoder.id == w.state.encoder.id
                  && w2.ended[|w1.ended|].event.reason == Ends(w, ev).value
                  && w2.ended[|w1.ended|].event.path == w.state.meta.path)
  {
    var w := Run(events);
    RunSnoc(events, ev);
    RunSnoc(events + [ev], Finalized(now, mapped));
    RunPipeline(events);
    if ev.Finalized? && w.state.toPush.Some? {
      PushKeepsQueue(w.state.encoder, w.state.toPush.value, ev.mapped, w.tick, ev.now);
    }
    if Ends(w, ev).Some? {
      FinalizeReports(Run(events + [ev]), now, mapped);
    }
  }

  lemma FinalizeReports(w: World, now: nat, mapped: bool)
    requires w.state.Stopping?
    ensures var w' := Step(w, Finalized(now, mapped));
            && |w'.ended| == |w.ended| + 1
            && w'.ended[|w.ended|].encoder.id == w.state.encoder.id
            && w'.ended[|w.ended|].event.reason == w.state.reason
            && w'.ended[|w.ended|].event.path == w.state.meta.path
  {
    FinalizeId(w.state, now, w.tick, mapped);
  }

  // A requested recording starts at the next tick exactly when the frame has a size, the rate is
  // not zero and the encoder spawns; a stop before that withdraws the request.
  lemma StartsIff(events: seq<Event>, size: Size, now: nat, env: Env)
    requires Run(events).state.RecordingRequested?
    ensures var w, w1 := Run(events), Run(events + [Capture(size, now, env)]);
            if size.w > 0 && size.h > 0 && w.state.fps > 0 && env.spawns then
              && w1.state.Recording? && w1.state.encoder == Spawn(w.spawned, size) && w1.spawned == w.spawned + 1
              && w1.state.meta.path == w.asked && w1.state.meta.frameInterval == env.interval
            else w1.state == Idle && w1.spawned == w.spawned
    ensures Run(events + [Stop]).state == Idle && Run(events + [Stop]).spawned == Run(events).spawned
  {
    RunSnoc(events, Capture(size, now, env));
    RunSnoc(events, Stop);
    RunOrigin(events);
  }

  // While nothing is running or closing, a request is taken with its path and rate; the latest one
  // counts.
  lemma RequestIsTaken(events: seq<Event>, path: Path, fps: u32)
    ensures var w, w1 := Run(events), Run(events + [Record(path, fps)]);
            && (!Active(w.state) ==> w1.state == RecordingRequested(path, fps))
            && (w.state.Stopping? ==> w1.state == w.state)
            && w1.asked == path
  {
    RunSnoc(events, Record(path, fps));
  }

  // A screenshot request, whatever the recorder was doing, captures the frame of the next tick for
  // its path, which the finalize of that tick takes out to be written.
  lemma ScreenshotIsTaken(events: seq<Event>, path: Path, size: Size, now: nat, env: Env, end: nat, mapped: bool)
    ensures var tick := Capture(size, now, env);
            var w := Run(events);
            var w1, w2 := Run(events + [Screenshot(path)] + [tick]),
                          Run(events + [Screenshot(path)] + [tick] + [Finalized(end, mapped)]);
            && w1.state == (if env.captures then ScreenshotPending(Shot(w.tick + 1, now, size), path) else Idle)
            && w2.state == Idle && w2.ended == w.ended && w2.spawned == w.spawned
  {
    var tick := Capture(size, now, env);
    RunSnoc(events, Screenshot(path));
    RunSnoc(events + [Screenshot(path)], tick);
    RunSnoc(events + [Screenshot(path)] + [tick], Finalized(end, mapped));
  }
}
