// Every due frame is recorded: runs in which captures and mappings succeed, the writer lives, and
// the host keeps pace.

module RecorderLive {
  import opened Prelude
  import opened ScreenRecorder
  import opened RecorderRuns

  // A run watched from outside. `due` are the frames that the latest recording ought to take, as
  // ticks, times and sizes; `captured` is the time of the latest tick; `owed` the due frames of
  // each finished recording.
  datatype Seen = Seen(world: World, due: seq<Shot>, captured: nat, owed: seq<seq<Shot>>)

  // A tick's frame is due when nothing was pushed yet or the last push is an interval ago.
  predicate FrameDue(ps: seq<Push>, interval: nat, now: nat) {
    ps == [] || now >= ps[|ps| - 1].at + interval
  }

  // The recording starts in this tick.
  predicate Starts(w: World, ev: Event) {
    ev.Capture? && w.state.RecordingRequested? && Step(w, ev).state.Recording?
  }

  function DueIn(s: Seen, ev: Event): seq<Shot> {
    match ev
    case Capture(size, now, _) =>
      var shot := Shot(s.world.tick + 1, now, size);
      var st := s.world.state;
      if Starts(s.world, ev) then [shot]
      else if st.Recording? && size == st.encoder.size && FrameDue(st.encoder.pushes, st.meta.frameInterval, now)
      then s.due + [shot]
      else s.due
    case _ => s.due
  }

  function Look(s: Seen, ev: Event): Seen {
    var w := Step(s.world, ev);
    Seen(w, DueIn(s, ev), if ev.Capture? then ev.now else s.captured,
         if |w.ended| > |s.world.ended| then s.owed + [s.due] else s.owed)
  }

  function Watch(events: seq<Event>): Seen
    decreases |events|
  {
    if events == [] then Seen(START, [], 0, []) else Look(Watch(events[..|events| - 1]), events[|events| - 1])
  }

  // The host finalizes exactly once a tick, nothing fails, and while a recording is under way the
  // next tick, and the finalize of a tick, come at most `d` after the tick.
  predicate SteadyStep(s: Seen, ev: Event, d: nat) {
    match ev
    case Capture(_, now, env) =>
      s.world.finalized && env.captures && now >= s.world.clock && (Active(s.world.state) ==> now <= s.captured + d)
    case Finalized(now, mapped) =>
      !s.world.finalized && mapped && now >= s.world.clock && (Active(s.world.state) ==> now <= s.captured + d)
    case WriterDies => false
    case _ => true
  }

  ghost predicate SteadyAt(events: seq<Event>, i: nat, d: nat)
    requires i < |events|
  {
    SteadyStep(Watch(events[..i]), events[i], d)
  }

  ghost predicate Steady(events: seq<Event>, d: nat) {
    forall i :: 0 <= i < |events| ==> SteadyAt(events, i, d)
  }

  lemma SteadyPrefix(events: seq<Event>, d: nat)
    requires events != [] && Steady(events, d)
    ensures Steady(events[..|events| - 1], d)
  {
    var most := events[..|events| - 1];
    forall i | 0 <= i < |most| ensures SteadyAt(most, i, d) {
      assert SteadyAt(events, i, d) && most[..i] == events[..i];
    }
  }

  // Watching changes nothing.
  lemma {:induction false} WatchIsRun(events: seq<Event>)
    ensures Watch(events).world == Run(events)
    decreases |events|
  {
    if events != [] {
      WatchIsRun(events[..|events| - 1]);
    }
  }

  lemma SteadyIsFair(events: seq<Event>, d: nat)
    requires Steady(events, d)
    ensures Fair(events)
  {
    forall i | 0 <= i < |events| ensures FairAt(events, i) {
      assert SteadyAt(events, i, d);
      WatchIsRun(events[..i]);
    }
  }

  // ---------------------------------------------------------------------
  // No due frame is missed
  // ---------------------------------------------------------------------

  function ShotOf(p: Push): seq<Shot> {
    [p.shot]
  }

  function Shots(ps: seq<Push>): seq<Shot> {
    FlatMap(ShotOf, ps)
  }

  function Opt(s: Option<Shot>): seq<Shot> {
    if s.Some? then [s.value] else []
  }

  lemma ShotsSnoc(ps: seq<Push>, p: Push)
    ensures Shots(ps + [p]) == Shots(ps) + [p.shot]
  {
    FlatMapAppend(ShotOf, ps, [p]);
    FlatMapOne(ShotOf, p);
  }

  // Each frame is pushed by the finalize of the tick after the one that captured it.
  ghost predicate NextTick(ps: seq<Push>) {
    forall i :: 0 <= i < |ps| ==> ps[i].tick == ps[i].shot.tick + 1
  }

  // How many due frames a recording may lose when it ends for the reason: those still in the
  // pipeline.
  function MayLose(r: FinishReason): nat {
    match r
    case User => 1
    case Resize => 0
    case EncoderError => 0
    case Replaced => 2
  }

  // The frame in place was captured in the latest tick to be finalized.
  predicate InPlace(p: Option<Shot>, tick: nat, finalized: bool) {
    p.Some? ==> p.value.tick + (if finalized then 0 else 1) == tick
  }

  ghost predicate Complete(due: seq<Shot>, kept: seq<Shot>, lost: nat) {
    kept <= due && |due| <= |kept| + lost
  }

  ghost predicate AllTaken(s: Seen) {
    match s.world.state
    case Recording(e, _, p, j) =>
      && e.alive && NextTick(e.pushes)
      && s.due == Shots(e.pushes) + Opt(p) + Opt(j)
      && InPlace(p, s.world.tick, s.world.finalized)
      && (j.Some? ==> !s.world.finalized && j.value.tick == s.world.tick)
    case Stopping(e, _, p, r) =>
      && e.alive && NextTick(e.pushes) && r != EncoderError
      && Complete(s.due, Shots(e.pushes) + Opt(p), MayLose(r))
      && InPlace(p, s.world.tick, s.world.finalized)
    case _ => true
  }

  // What a finished recording took of the frames it owed; its file has all that were not dropped.
  ghost predicate TookAll(x: Ended, owed: seq<Shot>) {
    && NextTick(x.encoder.pushes) && x.event.reason != EncoderError
    && Complete(owed, Shots(x.encoder.pushes), MayLose(x.event.reason))
    && x.encoder.received == Accepted(x.encoder.pushes)
  }

  ghost predicate AllEndedTook(s: Seen) {
    && |s.owed| == |s.world.ended|
    && forall i :: 0 <= i < |s.owed| ==> TookAll(s.world.ended[i], s.owed[i])
  }

  // A living encoder takes a mapped frame of its size.
  lemma Pushes(e: Encoder, m: Meta, shot: Shot, tick: nat, clock: nat, now: nat)
    requires GoodEncoder(e, m, tick, clock) && e.alive && shot.size == e.size
    ensures var r := MapAndPush(e, shot, true, tick, now);
            && r.Ok?
            && r.value.alive && r.value.size == e.size
            && r.value.pushes == e.pushes + [Push(shot, tick, now, |e.queue| < WRITER_QUEUE_DEPTH)]
            && Shots(r.value.pushes) == Shots(e.pushes) + [shot]
            && GoodQueue(r.value)
  {
    PushKeepsQueue(e, shot, true, tick, now);
    ShotsSnoc(e.pushes, Push(shot, tick, now, |e.queue| < WRITER_QUEUE_DEPTH));
  }

  lemma NextTickSnoc(ps: seq<Push>, p: Push)
    requires NextTick(ps) && p.tick == p.shot.tick + 1
    ensures NextTick(ps + [p])
  {}

  lemma DueAgrees(ps: seq<Push>, m: Meta, now: nat, clock: nat)
    requires m.lastFrameAt == LastAt(ps) && clock <= now && forall i :: 0 <= i < |ps| ==> ps[i].at <= clock
    ensures Due(m, now) <==> FrameDue(ps, m.frameInterval, now)
  {}

  lemma CaptureTakes(s: Seen, size: Size, now: nat, env: Env)
    requires PipelineInv(s.world) && AllTaken(s) && s.world.finalized && env.captures && now >= s.world.clock
    ensures AllTaken(Look(s, Capture(size, now, env)))
  {
    match s.world.state
    case Recording(e, m, _, _) =>
      if size == m.size {
        FrameTaken(s, size, now, env);
      } else {
        ResizeLosesNone(s, size, now, env);
      }
    case RecordingRequested(_, _) => FirstTaken(s, size, now, env);
    case _ =>
  }

  lemma FrameTaken(s: Seen, size: Size, now: nat, env: Env)
    requires PipelineInv(s.world) && AllTaken(s) && s.world.finalized && env.captures && now >= s.world.clock
    requires s.world.state.Recording? && size == s.world.state.meta.size
    ensures AllTaken(Look(s, Capture(size, now, env)))
  {
    LookFrame(s, size, now, env);
    NothingMore(Shots(s.world.state.encoder.pushes) + Opt(s.world.state.toPush));
  }

  // What a tick does to a running recording of the right size.
  lemma LookFrame(s: Seen, size: Size, now: nat, env: Env)
    requires PipelineInv(s.world) && env.captures && now >= s.world.clock
    requires s.world.state.Recording? && size == s.world.state.meta.size
    ensures Ticked(s, Look(s, Capture(size, now, env)), size, now)
  {
    var e, m := s.world.state.encoder, s.world.state.meta;
    DueAgrees(e.pushes, m, now, s.world.clock);
    LookDue(s, size, now, env, Due(m, now));
  }

  predicate Ticked(s: Seen, s': Seen, size: Size, now: nat)
    requires s.world.state.Recording?
  {
    var e, m, p := s.world.state.encoder, s.world.state.meta, s.world.state.toPush;
    var shot := Shot(s.world.tick + 1, now, size);
    var due := FrameDue(e.pushes, m.frameInterval, now);
    && s'.world.state == Recording(e, m, p, if due then Some(shot) else None)
    && s'.due == (if due then s.due + [shot] else s.due)
    && s'.world.tick == s.world.tick + 1 && !s'.world.finalized && s'.world.clock == now && s'.captured == now
  }

  lemma LookDue(s: Seen, size: Size, now: nat, env: Env, due: bool)
    requires s.world.state.Recording? && size == s.world.state.meta.size == s.world.state.encoder.size && env.captures
    requires due == Due(s.world.state.meta, now)
    requires due == FrameDue(s.world.state.encoder.pushes, s.world.state.meta.frameInterval, now)
    ensures Ticked(s, Look(s, Capture(size, now, env)), size, now)
  {
    TickOf(s.world, size, now, env);
    NoStart(s.world, Capture(size, now, env));
  }

  lemma TickOf(w: World, size: Size, now: nat, env: Env)
    requires w.state.Recording? && size == w.state.meta.size && env.captures
    ensures var w', shot := Step(w, Capture(size, now, env)), Shot(w.tick + 1, now, size);
            && w'.state == Recording(w.state.encoder, w.state.meta, w.state.toPush,
                                     if Due(w.state.meta, now) then Some(shot) else None)
            && w'.tick == w.tick + 1 && !w'.finalized && w'.clock == now
  {}

  lemma NoStart(w: World, ev: Event)
    requires w.state.Recording?
    ensures !Starts(w, ev)
  {}

  lemma ResizeLosesNone(s: Seen, size: Size, now: nat, env: Env)
    requires PipelineInv(s.world) && AllTaken(s) && s.world.finalized && env.captures && now >= s.world.clock
    requires s.world.state.Recording? && size != s.world.state.meta.size
    ensures AllTaken(Look(s, Capture(size, now, env)))
  {
    NothingMore(Shots(s.world.state.encoder.pushes) + Opt(s.world.state.toPush));
  }

  lemma FirstTaken(s: Seen, size: Size, now: nat, env: Env)
    requires s.world.state.RecordingRequested? && env.captures
    ensures AllTaken(Look(s, Capture(size, now, env)))
  {
    var shot := [Shot(s.world.tick + 1, now, size)];
    assert Shots([]) == [] && [] + [] + shot == shot;
  }

  lemma NothingMore(xs: seq<Shot>)
    ensures xs + [] == xs && Complete(xs, xs, 0)
  {}

  lemma FinalizeTakes(s: Seen, now: nat)
    requires PipelineInv(s.world) && AllTaken(s) && !s.world.finalized && now >= s.world.clock
    ensures AllTaken(Look(s, Finalized(now, true)))
  {
    match s.world.state
    case Recording(e, m, Some(shot), j) =>
      Pushes(e, m, shot, s.world.tick, s.world.clock, now);
      NextTickSnoc(e.pushes, Push(shot, s.world.tick, now, |e.queue| < WRITER_QUEUE_DEPTH));
      NothingMore(Shots(e.pushes) + [shot] + Opt(j));
    case Recording(e, _, None, j) =>
      NothingMore(Shots(e.pushes) + Opt(j));
      NothingMore(Shots(e.pushes));
    case _ =>
  }

  lemma RequestTakes(s: Seen, ev: Event)
    requires AllTaken(s) && (ev.Record? || ev.Stop?)
    ensures AllTaken(Look(s, ev))
  {
    if s.world.state.Recording? {
      var e, p, j := s.world.state.encoder, s.world.state.toPush, s.world.state.justCaptured;
      var taken := Shots(e.pushes);
      assert taken + Opt(None) == taken;
      Assoc(taken, Opt(p), Opt(j));
      StillComplete(taken, Opt(p) + Opt(j), 2);
      StillComplete(taken + Opt(p), Opt(j), 1);
    }
  }

  lemma StillComplete(kept: seq<Shot>, more: seq<Shot>, n: nat)
    requires |more| <= n
    ensures Complete(kept + more, kept, n)
  {}

  lemma LookTakes(s: Seen, ev: Event, d: nat)
    requires PipelineInv(s.world) && AllTaken(s) && SteadyStep(s, ev, d)
    ensures AllTaken(Look(s, ev))
  {
    match ev
    case Capture(size, now, env) => CaptureTakes(s, size, now, env);
    case Finalized(now, mapped) => FinalizeTakes(s, now);
    case Record(_, _) => RequestTakes(s, ev);
    case Stop => RequestTakes(s, ev);
    case _ =>
  }

  // The last finalize pushes what is in place and closes the file.
  lemma EndTook(s: Seen, now: nat)
    requires PipelineInv(s.world) && AllTaken(s) && !s.world.finalized && now >= s.world.clock
    requires s.world.state.Stopping?
    ensures var w := Step(s.world, Finalized(now, true));
            |w.ended| == |s.world.ended| + 1 && TookAll(w.ended[|s.world.ended|], s.due)
  {
    var e, m, p := s.world.state.encoder, s.world.state.meta, s.world.state.toPush;
    if p.Some? {
      Pushes(e, m, p.value, s.world.tick, s.world.clock, now);
      NextTickSnoc(e.pushes, Push(p.value, s.world.tick, now, |e.queue| < WRITER_QUEUE_DEPTH));
    } else {
      NothingMore(Shots(e.pushes));
    }
  }

  lemma {:induction false} RunTakes(events: seq<Event>, d: nat)
    requires Steady(events, d)
    ensures AllTaken(Watch(events)) && AllEndedTook(Watch(events))
    decreases |events|
  {
    if events != [] {
      var n := |events| - 1;
      var s, ev := Watch(events[..n]), events[n];
      SteadyPrefix(events, d);
      RunTakes(events[..n], d);
      WatchIsRun(events[..n]);
      SteadyIsFair(events[..n], d);
      RunPipeline(events[..n]);
      assert SteadyAt(events, n, d);
      LookTakes(s, ev, d);
      EndedGrow(s, ev);
      if ev.Finalized? && s.world.state.Stopping? {
        EndTook(s, ev.now);
      }
    }
  }

  lemma EndedGrow(s: Seen, ev: Event)
    ensures var w := Step(s.world, ev);
            if ev.Finalized? && s.world.state.Stopping? then
              |w.ended| == |s.world.ended| + 1 && w.ended[..|s.world.ended|] == s.world.ended
            else w.ended == s.world.ended
  {
    if ev.Finalized? {
      FinalizeId(s.world.state, ev.now, s.world.tick, ev.mapped);
    }
  }

  // Over every steady run: the frames pushed by the current recording are exactly the due ones, in
  // order, each pushed in the tick after the one that captured it, apart from the last two at most,
  // which are still in the pipeline; and every finished recording pushed exactly the frames it
  // owed, up to those that a stop or a replacement discarded from the pipeline, and its file holds
  // all of them that the full queue did not drop.
  lemma DueFramesAreRecorded(events: seq<Event>, d: nat)
    requires Steady(events, d)
    ensures var s := Watch(events);
            && (s.world.state.Recording? ==>
                  && NextTick(s.world.state.encoder.pushes)
                  && Complete(s.due, Shots(s.world.state.encoder.pushes), 2))
            && |s.owed| == |s.world.ended|
            && (forall i :: 0 <= i < |s.owed| ==> TookAll(s.world.ended[i], s.owed[i]))
  {
    RunTakes(events, d);
    var s := Watch(events);
    if s.world.state.Recording? {
      var e, p, j := s.world.state.encoder, s.world.state.toPush, s.world.state.justCaptured;
      Assoc(Shots(e.pushes), Opt(p), Opt(j));
      StillComplete(Shots(e.pushes), Opt(p) + Opt(j), 2);
    }
  }

  // ---------------------------------------------------------------------
  // How many frames a recording has at least
  // ---------------------------------------------------------------------

  // The longest time from one push to the next.
  function Gap(interval: nat, d: nat): nat {
    interval + 4 * d
  }

  // `n` gaps in a row.
  function Gaps(n: nat, gap: nat): nat {
    if n == 0 then 0 else Gaps(n - 1, gap) + gap
  }

  lemma {:induction false} GapsAre(n: nat, gap: nat)
    ensures Gaps(n, gap) == n * gap
  {
    if n > 0 {
      GapsAre(n - 1, gap);
    }
  }

  // The last push, or the start.
  function Base(e: Encoder, m: Meta): nat {
    if e.pushes == [] then m.startedAt else e.pushes[|e.pushes| - 1].at
  }

  predicate OnPace(e: Encoder, m: Meta, d: nat) {
    Base(e, m) <= m.startedAt + Gaps(|e.pushes|, Gap(m.frameInterval, d))
  }

  // The next frame to be pushed was captured when it became due, or none has become due yet.
  predicate InTime(base: nat, interval: nat, p: Option<Shot>, j: Option<Shot>, captured: nat, finalized: bool, d: nat) {
    match p
    case Some(shot) => shot.at <= base + interval + d && captured <= shot.at + (if finalized then 0 else d)
    case None =>
      match j
      case Some(shot) => shot.at <= base + interval + d && captured == shot.at
      case None => captured <= base + interval
  }

  predicate Timely(s: Seen, d: nat) {
    match s.world.state
    case Recording(e, m, p, j) =>
      && s.captured <= s.world.clock <= s.captured + d
      && OnPace(e, m, d)
      && (j.Some? ==> j.value.at == s.captured)
      && InTime(Base(e, m), m.frameInterval, p, j, s.captured, s.world.finalized, d)
    case Stopping(e, m, p, _) =>
      && s.captured <= s.world.clock <= s.captured + d
      && OnPace(e, m, d)
      && s.captured <= Base(e, m) + m.frameInterval + (if s.world.finalized then 2 * d else 3 * d)
    case _ => true
  }

  lemma CaptureInTime(s: Seen, size: Size, now: nat, env: Env, d: nat)
    requires PipelineInv(s.world) && AllTaken(s) && Timely(s, d) && SteadyStep(s, Capture(size, now, env), d)
    ensures Timely(Look(s, Capture(size, now, env)), d)
  {
    match s.world.state
    case Recording(e, m, _, _) =>
      if size == m.size {
        LookFrame(s, size, now, env);
      }
    case _ =>
  }

  lemma FinalizeInTime(s: Seen, now: nat, d: nat)
    requires PipelineInv(s.world) && AllTaken(s) && Timely(s, d) && SteadyStep(s, Finalized(now, true), d)
    ensures Timely(Look(s, Finalized(now, true)), d)
  {
    match s.world.state
    case Recording(_, _, Some(_), _) => PushInTime(s, now, d);
    case _ =>
  }

  lemma PushInTime(s: Seen, now: nat, d: nat)
    requires PipelineInv(s.world) && AllTaken(s) && Timely(s, d) && SteadyStep(s, Finalized(now, true), d)
    requires s.world.state.Recording? && s.world.state.toPush.Some?
    ensures Timely(Look(s, Finalized(now, true)), d)
  {
    var e, m, shot := s.world.state.encoder, s.world.state.meta, s.world.state.toPush.value;
    Pushes(e, m, shot, s.world.tick, s.world.clock, now);
    PushedState(s.world, now);
    OneGapMore(|e.pushes|, Gap(m.frameInterval, d));
  }

  lemma PushedState(w: World, now: nat)
    requires w.state.Recording? && w.state.toPush.Some?
    requires MapAndPush(w.state.encoder, w.state.toPush.value, true, w.tick, now).Ok?
    ensures var w', m := Step(w, Finalized(now, true)), w.state.meta;
            var e' := MapAndPush(w.state.encoder, w.state.toPush.value, true, w.tick, now).value;
            && w'.state == Recording(e', m.(framesWritten := m.framesWritten + 1, lastFrameAt := Some(now)),
                                     w.state.justCaptured, None)
            && w'.finalized && w'.clock == now
  {}

  lemma LookInTime(s: Seen, ev: Event, d: nat)
    requires PipelineInv(s.world) && AllTaken(s) && Timely(s, d) && SteadyStep(s, ev, d)
    ensures Timely(Look(s, ev), d)
  {
    match ev
    case Capture(size, now, env) => CaptureInTime(s, size, now, env, d);
    case Finalized(now, _) => FinalizeInTime(s, now, d);
    case _ =>
  }

  // How long a finished recording lasted for the frames it wrote.
  predicate LongEnough(x: Ended, d: nat) {
    x.event.duration <= Gaps(x.event.framesWritten + 1, Gap(x.interval, d))
  }

  lemma EndInTime(s: Seen, now: nat, d: nat)
    requires PipelineInv(s.world) && AllTaken(s) && Timely(s, d) && SteadyStep(s, Finalized(now, true), d)
    requires s.world.state.Stopping?
    ensures var w := Step(s.world, Finalized(now, true));
            |w.ended| == |s.world.ended| + 1 && LongEnough(w.ended[|s.world.ended|], d)
  {
    var m := s.world.state.meta;
    EndIs(s.world, now);
    EndSpan(s, now, d);
    var n, gap := m.framesWritten, Gap(m.frameInterval, d);
    assert Gaps(n + 2, gap) == Gaps(n + 1, gap) + gap;
  }

  // What the last finalize reports when nothing fails.
  lemma EndIs(w: World, now: nat)
    requires PipelineInv(w) && now >= w.clock && w.state.Stopping? && w.state.encoder.alive
    ensures var w', m := Step(w, Finalized(now, true)), w.state.meta;
            && |w'.ended| == |w.ended| + 1
            && var x := w'.ended[|w.ended|];
            && x.interval == m.frameInterval && x.event.duration == Since(now, m.startedAt)
            && x.event.framesWritten == m.framesWritten + if w.state.toPush.Some? then 1 else 0
  {
    var e, m, p := w.state.encoder, w.state.meta, w.state.toPush;
    if p.Some? {
      Pushes(e, m, p.value, w.tick, w.clock, now);
    }
  }

  lemma EndSpan(s: Seen, now: nat, d: nat)
    requires PipelineInv(s.world) && Timely(s, d) && SteadyStep(s, Finalized(now, true), d) && s.world.state.Stopping?
    ensures var m := s.world.state.meta;
            now <= m.startedAt + Gaps(m.framesWritten + 1, Gap(m.frameInterval, d))
  {
    var e, m := s.world.state.encoder, s.world.state.meta;
    OneGapMore(|e.pushes|, Gap(m.frameInterval, d));
  }

  lemma OneGapMore(n: nat, gap: nat)
    ensures Gaps(n + 1, gap) == Gaps(n, gap) + gap
  {}

  lemma {:induction false} RunInTime(events: seq<Event>, d: nat)
    requires Steady(events, d)
    ensures Timely(Watch(events), d)
    ensures forall i :: 0 <= i < |Run(events).ended| ==> LongEnough(Run(events).ended[i], d)
    decreases |events|
  {
    WatchIsRun(events);
    if events != [] {
      var n := |events| - 1;
      var s, ev := Watch(events[..n]), events[n];
      SteadyPrefix(events, d);
      RunInTime(events[..n], d);
      WatchIsRun(events[..n]);
      SteadyIsFair(events[..n], d);
      RunPipeline(events[..n]);
      RunTakes(events[..n], d);
      assert SteadyAt(events, n, d);
      LookInTime(s, ev, d);
      EndedGrow(s, ev);
      if ev.Finalized? && s.world.state.Stopping? {
        EndInTime(s, ev.now, d);
      }
    }
  }

  // With a tick at least every `d`, a recording of length T has at least about T / (interval + 4 d)
  // frames: one that has finished reported (frames + 1) * (interval + 4 d) >= T, and one that runs
  // is never behind that either.
  lemma MinimumRate(events: seq<Event>, d: nat)
    requires Steady(events, d)
    ensures var w := Run(events);
            && (forall i :: 0 <= i < |w.ended| ==> AtLeast(w.ended[i].event.duration, w.ended[i].event.framesWritten,
                                                          w.ended[i].interval, d))
            && (w.state.Recording? ==>
                  var m := w.state.meta;
                  w.clock >= m.startedAt && AtLeast(w.clock - m.startedAt, m.framesWritten, m.frameInterval, d))
  {
    RunInTime(events, d);
    var w := Run(events);
    forall i | 0 <= i < |w.ended|
      ensures AtLeast(w.ended[i].event.duration, w.ended[i].event.framesWritten, w.ended[i].interval, d)
    {
      var x := w.ended[i];
      assert LongEnough(x, d);
      GapsSay(x.event.duration, x.event.framesWritten, x.interval, d);
    }
    if w.state.Recording? {
      RunningInTime(events, d);
      GapsSay(w.clock - w.state.meta.startedAt, w.state.meta.framesWritten, w.state.meta.frameInterval, d);
    }
  }

  lemma GapsSay(length: nat, frames: nat, interval: nat, d: nat)
    requires length <= Gaps(frames + 1, Gap(interval, d))
    ensures AtLeast(length, frames, interval, d)
  {
    GapsAre(frames + 1, Gap(interval, d));
  }

  predicate AtLeast(length: nat, frames: nat, interval: nat, d: nat) {
    length <= (frames + 1) * (interval + 4 * d)
  }

  lemma RunningInTime(events: seq<Event>, d: nat)
    requires Steady(events, d) && Run(events).state.Recording?
    ensures var w := Run(events);
            var m := w.state.meta;
            m.startedAt <= w.clock <= m.startedAt + Gaps(m.framesWritten + 1, Gap(m.frameInterval, d))
  {
    RunInTime(events, d);
    WatchIsRun(events);
    SteadyIsFair(events, d);
    RunPipeline(events);
    var e, m := Run(events).state.encoder, Run(events).state.meta;
    var gap := Gap(m.frameInterval, d);
    assert Gaps(|e.pushes| + 1, gap) == Gaps(|e.pushes|, gap) + gap;
  }
}
