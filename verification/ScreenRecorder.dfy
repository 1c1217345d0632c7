// The screenshot and recording state machine, its one-tick readback pipeline, and the bounded
// queue in front of the video writer thread.

module ScreenRecorder {
  import opened Prelude

  type Path = bytes

  const WRITER_QUEUE_DEPTH: nat := 3

  datatype Size = Size(w: int, h: int)

  // A captured frame: the render tick and time that captured it, and its dimensions.
  datatype Shot = Shot(tick: nat, at: nat, size: Size)

  function ByteCount(size: Size): int {
    size.w * size.h * 4
  }

  // ---------------------------------------------------------------------
  // The encoder
  // ---------------------------------------------------------------------

  // A frame taken by `push_frame` without an error, in which tick and when, and whether it was
  // queued or dropped.
  datatype Push = Push(shot: Shot, tick: nat, at: nat, queued: bool)

  // The fields up to `dropped` are the encoder's own; the rest records its history.
  datatype Encoder = Encoder(
    id: nat,
    size: Size,
    bytesPerFrame: int,
    queue: seq<Shot>,
    alive: bool,
    dropped: nat,
    pushes: seq<Push>,
    received: seq<Shot>)

  datatype PushError = SizeMismatch | CaptureFailed | WriterDied

  function Spawn(id: nat, size: Size): Encoder {
    Encoder(id, size, ByteCount(size), [], true, 0, [], [])
  }

  // Hands `count` bytes of a frame to the writer; a full queue drops the frame.
  function PushFrame(e: Encoder, shot: Shot, count: int, tick: nat, now: nat): Result<Encoder, PushError> {
    if count != e.bytesPerFrame then Err(SizeMismatch)
    else if !e.alive then Err(WriterDied)
    else
      var room := |e.queue| < WRITER_QUEUE_DEPTH;
      var e' := e.(pushes := e.pushes + [Push(shot, tick, now, room)]);
      if room then Ok(e'.(queue := e.queue + [shot])) else Ok(e'.(dropped := e.dropped + 1))
  }

  // Maps a frame, which yields four bytes a pixel, and pushes it.
  function MapAndPush(e: Encoder, shot: Shot, mapped: bool, tick: nat, now: nat): Result<Encoder, PushError> {
    if !mapped then Err(CaptureFailed) else PushFrame(e, shot, ByteCount(shot.size), tick, now)
  }

  // The writer thread takes one frame.
  function Take(e: Encoder): Encoder {
    if e.alive && e.queue != [] then e.(queue := e.queue[1..], received := e.received + [e.queue[0]]) else e
  }

  // Closing the channel lets a living writer drain it before it is joined.
  function Close(e: Encoder): Encoder {
    if e.alive then e.(queue := [], received := e.received + e.queue) else e
  }

  // ---------------------------------------------------------------------
  // The recorder
  // ---------------------------------------------------------------------

  datatype FinishReason = User | Resize | EncoderError | Replaced

  datatype Meta = Meta(path: Path, startedAt: nat, frameInterval: nat, lastFrameAt: Option<nat>,
      framesWritten: nat, size: Size)

  datatype State =
    | Idle
    | ScreenshotRequested(path: Path)
    | ScreenshotPending(frame: Shot, path: Path)
    | RecordingRequested(path: Path, fps: u32)
    | Recording(encoder: Encoder, meta: Meta, toPush: Option<Shot>, justCaptured: Option<Shot>)
    | Stopping(encoder: Encoder, meta: Meta, toPush: Option<Shot>, reason: FinishReason)

  datatype FinishEvent = FinishEvent(path: Path, framesWritten: nat, duration: nat, reason: FinishReason)

  // What the surroundings answer in one tick: whether the subprocess starts, whether a capture
  // succeeds, and the frame interval that the requested rate converts to.
  datatype Env = Env(spawns: bool, captures: bool, interval: nat)

  function RequestRecording(s: State, path: Path, fps: u32): State {
    match s
    case Recording(e, m, _, _) => Stopping(e, m, None, Replaced)
    case Stopping(_, _, _, _) => s
    case _ => RecordingRequested(path, fps)
  }

  function StopRecording(s: State): State {
    match s
    case Recording(e, m, p, _) => Stopping(e, m, p, User)
    case RecordingRequested(_, _) => Idle
    case _ => s
  }

  function TryCapture(env: Env, tick: nat, now: nat, size: Size): Option<Shot> {
    if env.captures then Some(Shot(tick, now, size)) else None
  }

  // Time since `start`, zero if the clock went back.
  function Since(now: nat, start: nat): nat {
    if now < start then 0 else now - start
  }

  predicate Due(m: Meta, now: nat) {
    m.lastFrameAt.None? || Since(now, m.lastFrameAt.value) >= m.frameInterval
  }

  function CaptureFrame(s: State, size: Size, now: nat, tick: nat, id: nat, env: Env): State {
    match s
    case ScreenshotRequested(path) =>
      var shot := TryCapture(env, tick, now, size);
      if shot.Some? then ScreenshotPending(shot.value, path) else Idle
    case RecordingRequested(path, fps) =>
      if size.w <= 0 || size.h <= 0 || fps == 0 || !env.spawns then Idle
      else
        Recording(Spawn(id, size), Meta(path, now, env.interval, None, 0, size), None,
                  TryCapture(env, tick, now, size))
    case Recording(e, m, p, _) =>
      if size != m.size then Stopping(e, m, p, Resize)
      else Recording(e, m, p, if Due(m, now) then TryCapture(env, tick, now, size) else None)
    case _ => s
  }

  function Finalize(s: State, now: nat, tick: nat, mapped: bool): (State, Option<(Encoder, FinishEvent)>) {
    match s
    case ScreenshotPending(_, _) => (Idle, None)
    case Recording(e, m, p, j) =>
      if p.None? then (Recording(e, m, j, None), None)
      else
        (match MapAndPush(e, p.value, mapped, tick, now)
         case Ok(e') => (Recording(e', m.(framesWritten := m.framesWritten + 1, lastFrameAt := Some(now)), j,
             None), None)
         case Err(_) => (Stopping(e, m, None, EncoderError), None))
    case Stopping(e, m, p, reason) =>
      var (e', n) := FlushLast(e, m, p, mapped, tick, now);
      (Idle, Some((Close(e'), FinishEvent(m.path, n, Since(now, m.startedAt), reason))))
    case _ => (s, None)
  }

  // The frame still in the pipeline when a recording stops.
  function FlushLast(e: Encoder, m: Meta, p: Option<Shot>, mapped: bool, tick: nat, now: nat): (Encoder, nat) {
    if p.None? then (e, m.framesWritten)
    else
      match MapAndPush(e, p.value, mapped, tick, now)
      case Ok(e') => (e', m.framesWritten + 1)
      case Err(_) => (e, m.framesWritten)
  }

  // The object whose methods replace the state.
  class Recorder {
    var state: State

    constructor ()
      ensures state == Idle
    {
      state := Idle;
    }

    // Supersedes whatever the recorder was doing.
    method QueueScreenshot(path: Path)
      modifies this
      ensures state == ScreenshotRequested(path)
    {
      state := ScreenshotRequested(path);
    }

    method QueueRecording(path: Path, fps: u32)
      modifies this
      ensures state == RequestRecording(old(state), path, fps)
    {
      match state {
        case Recording(encoder, meta, _, _) => state := Stopping(encoder, meta, None, Replaced);
        case Stopping(_, _, _, _) =>
        case _ => state := RecordingRequested(path, fps);
      }
    }

    method Stop()
      modifies this
      ensures state == StopRecording(old(state))
    {
      match state {
        case Recording(encoder, meta, toPush, _) => state := Stopping(encoder, meta, toPush, User);
        case RecordingRequested(_, _) => state := Idle;
        case _ =>
      }
    }

    method Capture(size: Size, now: nat, tick: nat, id: nat, env: Env)
      modifies this
      ensures state == CaptureFrame(old(state), size, now, tick, id, env)
    {
      match state {
        case ScreenshotRequested(path) =>
          var shot := TryCapture(env, tick, now, size);
          state := if shot.Some? then ScreenshotPending(shot.value, path) else Idle;
        case RecordingRequested(path, fps) =>
          if size.w <= 0 || size.h <= 0 || fps == 0 || !env.spawns {
            state := Idle;
            return;
          }
          var meta := Meta(path, now, env.interval, None, 0, size);
          state := Recording(Spawn(id, size), meta, None, TryCapture(env, tick, now, size));
        case Recording(encoder, meta, toPush, _) =>
          if size != meta.size {
            state := Stopping(encoder, meta, toPush, Resize);
            return;
          }
          var shot := None;
          if Due(meta, now) {
            shot := TryCapture(env, tick, now, size);
          }
          state := Recording(encoder, meta, toPush, shot);
        case _ =>
      }
    }

    method Finish(now: nat, tick: nat, mapped: bool) returns (event: Option<FinishEvent>, ghost closed: Option<Encoder>)
      modifies this
      ensures var (s, r) := Finalize(old(state), now, tick, mapped);
              && state == s
              && event == (if r.Some? then Some(r.value.1) else None)
              && closed == (if r.Some? then Some(r.value.0) else None)
    {
      event, closed := None, None;
      match state {
        case ScreenshotPending(_, _) => state := Idle;
        case Recording(encoder, meta, toPush, justCaptured) =>
          if toPush.Some? {
            var pushed := MapAndPush(encoder, toPush.value, mapped, tick, now);
            if pushed.Err? {
              state := Stopping(encoder, meta, None, EncoderError);
              return;
            }
            encoder := pushed.value;
            meta := meta.(framesWritten := meta.framesWritten + 1, lastFrameAt := Some(now));
          }
          state := Recording(encoder, meta, justCaptured, None);
        case Stopping(encoder, meta, toPush, reason) =>
          if toPush.Some? {
            var pushed := MapAndPush(encoder, toPush.value, mapped, tick, now);
            if pushed.Ok? {
              encoder := pushed.value;
              meta := meta.(framesWritten := meta.framesWritten + 1);
            }
          }
          event := Some(FinishEvent(meta.path, meta.framesWritten, Since(now, meta.startedAt), reason));
          closed := Some(Close(encoder));
          state := Idle;
        case _ =>
      }
    }
  }
}
