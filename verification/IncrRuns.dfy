// Owner and requestors together, through the properties they share: any number of transfers
// under distinct keys, interleaved in any order.

module IncrRuns {
  import opened Prelude
  import opened Incr

  // One key's share of the world: the property, the notices on their way to the requestor, the
  // deletions on their way to the owner, the pending conversion, and what has happened so far.
  datatype Local = Local(
    cell: Option<Value>,
    inbox: seq<Notice>,
    deletes: nat,
    pending: Option<Pending>,
    given: Option<bytes>,
    chunks: seq<bytes>,
    handled: nat,
    written: seq<bytes>)

  const IDLE := Local(None, [], 0, None, None, [], 0, [])

  datatype World = World(sender: Sender, locals: map<Key, Local>)

  const EMPTY := World(Sender(0, map[], []), map[])

  function At(w: World, key: Key): Local {
    if key in w.locals then w.locals[key] else IDLE
  }

  datatype Event =
    | Ask(key: Key, target: Atom)
    | Finish(id: nat, data: bytes)
    | Deleted(key: Key)
    | Notified(key: Key)

  // The owner writes a property: the requestor is told, and remembered chunks grow.
  function Written(l: Local, v: Value): Local {
    l.(cell := Some(v), inbox := l.inbox + [NewValue],
       chunks := if v.Content? then l.chunks + [v.data] else l.chunks)
  }

  // The requestor handles one notice; reading an existing property deletes it.
  function Notify(l: Local): Local {
    if l.inbox == [] then l
    else
      var n := l.inbox[0];
      var r := OnNotice(l.pending, n, l.cell);
      var took := Reads(l.pending, n) && l.cell.Some?;
      l.(inbox := l.inbox[1..],
         pending := r.pending,
         cell := if took then None else l.cell,
         deletes := if took then l.deletes + 1 else l.deletes,
         written := if r.written.Some? then l.written + [r.written.value] else l.written)
  }

  function Step(w: World, ev: Event): World {
    match ev
    case Ask(key, target) =>
      var s := w.sender;
      World(s.(nextId := s.nextId + 1, requests := s.requests[s.nextId := Request(key, target)]),
            w.locals[key := IDLE.(pending := Some(Pending(false, [])))])
    case Finish(id, data) =>
      var (s, put) := Complete(w.sender, id, data);
      (match put
       case None => World(s, w.locals)
       case Some(p) =>
         var l := Written(At(w, p.key).(given := Some(data)), p.value);
         World(s, w.locals[p.key := if p.notify then l.(inbox := l.inbox + [SelectionNotify]) else l]))
    case Deleted(key) =>
      var l := At(w, key);
      if l.deletes == 0 then w
      else
        var (ts, v) := HandleDelete(w.sender.transfers, key);
        var l' := l.(deletes := l.deletes - 1, handled := l.handled + 1);
        World(w.sender.(transfers := ts), w.locals[key := if v.Some? then Written(l', v.value) else l'])
    case Notified(key) =>
      World(w.sender, w.locals[key := Notify(At(w, key))])
  }

  function Run(events: seq<Event>): World
    decreases |events|
  {
    if events == [] then EMPTY else Step(Run(events[..|events| - 1]), events[|events| - 1])
  }

  // ---------------------------------------------------------------------
  // How far a transfer has come
  // ---------------------------------------------------------------------

  // How many bytes the first `k` chunks carry.
  function Upto(data: bytes, k: nat): (n: nat)
    ensures n <= |data|
  {
    if k * INCR_CHUNK_SIZE < |data| then k * INCR_CHUNK_SIZE else |data|
  }

  // ceil(n / 65536)
  function Pieces(data: bytes): nat {
    (|data| + INCR_CHUNK_SIZE - 1) / INCR_CHUNK_SIZE
  }

  function Piece(data: bytes, k: nat): bytes {
    if Upto(data, k) <= Upto(data, k + 1) then data[Upto(data, k)..Upto(data, k + 1)] else []
  }

  function FirstPieces(data: bytes, k: nat): seq<bytes> {
    if k == 0 then [] else FirstPieces(data, k - 1) + [Piece(data, k - 1)]
  }

  datatype Stage =
    | Unused
    | Asked
    | Small(step: nat)           // notices and deletion of a direct transfer still to come: 3, 2, 1, 0
    | Announced(step: nat)       // the INCR property is set: 2, then 1 notice still to come
    | Wanted(k: nat)             // `k` chunks received, the next one asked for
    | Offered(k: nat)            // chunk `k` is in the property
    | Closing                    // the empty chunk is in the property
    | Closed                     // its deletion is on the way
    | Finished

  datatype Job = Job(target: Atom, data: bytes, stage: Stage)

  const NO_JOB := Job(0, [], Unused)

  predicate JobOk(j: Job) {
    var n := Pieces(j.data);
    match j.stage
    case Unused => true
    case Asked => true
    case Small(s) => |j.data| <= INCR_CHUNK_SIZE && s <= 3
    case Announced(s) => |j.data| > INCR_CHUNK_SIZE && 1 <= s <= 2
    case Wanted(k) => |j.data| > INCR_CHUNK_SIZE && k <= n
    case Offered(k) => |j.data| > INCR_CHUNK_SIZE && k < n
    case Closing => |j.data| > INCR_CHUNK_SIZE
    case Closed => |j.data| > INCR_CHUNK_SIZE
    case Finished => |j.data| > INCR_CHUNK_SIZE
  }

  // The key's share of the world at a stage.
  function LocalOf(j: Job): Local {
    var d, n := j.data, Pieces(j.data);
    var g := Some(d);
    match j.stage
    case Unused => IDLE
    case Asked => IDLE.(pending := Some(Pending(false, [])))
    case Small(s) =>
      Local(if s >= 2 then Some(Content(j.target, d)) else None,
            if s == 3 then [NewValue, SelectionNotify] else if s == 2 then [SelectionNotify] else [],
            if s == 1 then 1 else 0,
            if s >= 2 then Some(Pending(false, [])) else None,
            g, [d], if s == 0 then 1 else 0, if s >= 2 then [] else [d])
    case Announced(s) =>
      Local(Some(IncrSize(|d| % 0x1_0000_0000)),
            if s == 2 then [NewValue, SelectionNotify] else [SelectionNotify],
            0, Some(Pending(false, [])), g, [], 0, [])
    case Wanted(k) => Local(None, [], 1, Some(Pending(true, d[..Upto(d, k)])), g, FirstPieces(d, k), k, [])
    case Offered(k) =>
      Local(Some(Content(j.target, Piece(d, k))), [NewValue], 0,
            Some(Pending(true, d[..Upto(d, k)])), g, FirstPieces(d, k + 1), k + 1, [])
    case Closing => Local(Some(Content(j.target, [])), [NewValue], 0, Some(Pending(true, d)), g, FirstPieces(d,
        n) + [[]], n + 1, [])
    case Closed => Local(None, [], 1, None, g, FirstPieces(d, n) + [[]], n + 1, [d])
    case Finished => Local(None, [], 0, None, g, FirstPieces(d, n) + [[]], n + 2, [d])
  }

  // The owner's entry for it.
  function TransferOf(key: Key, j: Job): Option<Transfer> {
    var req, d := Request(key, j.target), j.data;
    match j.stage
    case Announced(_) => Some(Transfer(req, d, false))
    case Wanted(k) => Some(Transfer(req, d[Upto(d, k)..], false))
    case Offered(k) => Some(Transfer(req, d[Upto(d, k + 1)..], false))
    case Closing => Some(Transfer(req, [], true))
    case Closed => Some(Transfer(req, [], true))
    case _ => None
  }

  function NextStage(j: Job): Stage {
    match j.stage
    case Small(s) => if s > 0 then Small(s - 1) else j.stage
    case Announced(s) => if s == 2 then Announced(1) else Wanted(0)
    case Wanted(k) => if k < Pieces(j.data) then Offered(k) else Closing
    case Offered(k) => Wanted(k + 1)
    case Closing => Closed
    case Closed => Finished
    case _ => j.stage
  }

  // Whether the owner or the requestor moves next.
  predicate OwnerMoves(j: Job) {
    j.stage.Wanted? || j.stage.Closed? || j.stage == Small(1)
  }

  predicate RequestorMoves(j: Job) {
    j.stage.Announced? || j.stage.Offered? || j.stage.Closing? || (j.stage.Small? && j.stage.step >= 2)
  }

  // How many events of its key the transfer still needs.
  function Remaining(j: Job): int {
    var n := Pieces(j.data);
    match j.stage
    case Small(s) => s
    case Announced(s) => s + 2 * n + 3
    case Wanted(k) => 2 * (n - k) + 3
    case Offered(k) => 2 * (n - k) + 2
    case Closing => 2
    case Closed => 1
    case _ => 0
  }

  // ---------------------------------------------------------------------
  // Chunks
  // ---------------------------------------------------------------------

  lemma PieceCount(data: bytes, k: nat)
    ensures k < Pieces(data) <==> k * INCR_CHUNK_SIZE < |data|
    ensures Upto(data, k) == |data| <==> k >= Pieces(data)
  {}

  // What one deletion takes off the remaining data is the next piece.
  lemma NextPiece(data: bytes, k: nat)
    requires k < Pieces(data)
    ensures var rest := data[Upto(data, k)..];
            && rest != []
            && rest[..ChunkEnd(rest)] == Piece(data, k)
            && rest[ChunkEnd(rest)..] == data[Upto(data, k + 1)..]
            && Piece(data, k) != []
            && data[..Upto(data, k)] + Piece(data, k) == data[..Upto(data, k + 1)]
  {
    PieceCount(data, k);
    var rest := data[Upto(data, k)..];
    assert Upto(data, k + 1) == Upto(data, k) + ChunkEnd(rest);
  }

  // Each piece but the last is full, and together they are the data.
  lemma {:induction false} PiecesAreTheData(data: bytes, k: nat)
    requires k <= Pieces(data)
    ensures |FirstPieces(data, k)| == k
    ensures Concat(FirstPieces(data, k)) == data[..Upto(data, k)]
    ensures forall i :: 0 <= i < k ==> 0 < |FirstPieces(data, k)[i]| <= INCR_CHUNK_SIZE
    ensures forall i :: 0 <= i < k && i < Pieces(data) - 1 ==> |FirstPieces(data, k)[i]| == INCR_CHUNK_SIZE
  {
    if k > 0 {
      PiecesAreTheData(data, k - 1);
      NextPiece(data, k - 1);
      PieceCount(data, k);
      ConcatSnoc(FirstPieces(data, k - 1), Piece(data, k - 1));
    }
  }

  // ---------------------------------------------------------------------
  // One event of a key
  // ---------------------------------------------------------------------

  // The requestor handles a notice: one step towards the end.
  lemma NotifyAdvances(j: Job)
    requires JobOk(j)
    ensures RequestorMoves(j) <==> LocalOf(j).inbox != []
    ensures Notify(LocalOf(j)) == LocalOf(if RequestorMoves(j) then j.(stage := NextStage(j)) else j)
    ensures RequestorMoves(j) ==> forall key :: TransferOf(key, j.(stage := NextStage(j))) == TransferOf(key, j)
  {
    match j.stage
    case Offered(_) => OfferedAdvances(j);
    case Announced(_) => AnnouncedAdvances(j);
    case Small(_) => SmallAdvances(j);
    case _ =>
  }

  lemma OfferedAdvances(j: Job)
    requires JobOk(j) && j.stage.Offered?
    ensures Notify(LocalOf(j)) == LocalOf(j.(stage := NextStage(j)))
    ensures forall key :: TransferOf(key, j.(stage := NextStage(j))) == TransferOf(key, j)
  {
    NextPiece(j.data, j.stage.k);
  }

  lemma AnnouncedAdvances(j: Job)
    requires JobOk(j) && j.stage.Announced?
    ensures Notify(LocalOf(j)) == LocalOf(j.(stage := NextStage(j)))
    ensures forall key :: TransferOf(key, j.(stage := NextStage(j))) == TransferOf(key, j)
  {
    assert j.data[..Upto(j.data, 0)] == [] && j.data[Upto(j.data, 0)..] == j.data;
  }

  lemma SmallAdvances(j: Job)
    requires JobOk(j) && j.stage.Small?
    ensures Notify(LocalOf(j)) == LocalOf(if RequestorMoves(j) then j.(stage := NextStage(j)) else j)
  {
    assert [] + j.data == j.data && [] + [j.data] == [j.data];
  }

  // The owner handles a deletion: one step towards the end.
  lemma DeleteAdvances(key: Key, j: Job)
    requires JobOk(j)
    ensures OwnerMoves(j) <==> LocalOf(j).deletes > 0
    ensures OwnerMoves(j) ==>
              var l, j' := LocalOf(j), j.(stage := NextStage(j));
              var l' := l.(deletes := l.deletes - 1, handled := l.handled + 1);
              match TransferOf(key, j)
              case None => LocalOf(j') == l' && TransferOf(key, j') == None
              case Some(t) =>
                var (t', v) := OnDelete(t);
                LocalOf(j') == (if v.Some? then Written(l', v.value) else l') && TransferOf(key, j') == t'
  {
    match j.stage
    case Wanted(k) =>
      PieceCount(j.data, k);
      if k < Pieces(j.data) {
        NextPiece(j.data, k);
      } else {
        assert j.data[..Upto(j.data, k)] == j.data && k == Pieces(j.data);
      }
    case _ =>
  }

  lemma AdvanceOk(j: Job)
    requires JobOk(j) && (OwnerMoves(j) || RequestorMoves(j))
    ensures JobOk(j.(stage := NextStage(j)))
    ensures Remaining(j) > 0 && Remaining(j.(stage := NextStage(j))) == Remaining(j) - 1
  {
    if j.stage.Announced? || j.stage.Wanted? {
      assert Pieces(j.data) >= 1;
    }
  }

  // A transfer that is not over can always move: nothing deadlocks.
  lemma SomeoneMoves(j: Job)
    requires JobOk(j)
    ensures Remaining(j) >= 0
    ensures Remaining(j) > 0 <==> OwnerMoves(j) || RequestorMoves(j)
  {}

  // ---------------------------------------------------------------------
  // The invariant of every run
  // ---------------------------------------------------------------------

  function JobAt(jobs: map<Key, Job>, key: Key): Job {
    if key in jobs then jobs[key] else NO_JOB
  }

  ghost predicate JobHolds(w: World, jobs: map<Key, Job>, key: Key) {
    && JobOk(JobAt(jobs, key))
    && At(w, key) == LocalOf(JobAt(jobs, key))
    && TransferFor(w.sender.transfers, key) == TransferOf(key, JobAt(jobs, key))
  }

  // A request that has not been answered is the only one of its key.
  ghost predicate RequestHolds(s: Sender, jobs: map<Key, Job>, id: nat)
    requires id in s.requests
  {
    var r := s.requests[id];
    && id < s.nextId
    && JobAt(jobs, r.key) == Job(r.target, [], Asked)
    && forall other :: other in s.requests && s.requests[other].key == r.key ==> other == id
  }

  ghost predicate Inv(w: World, jobs: map<Key, Job>) {
    && DistinctKeys(w.sender.transfers)
    && (forall key :: JobHolds(w, jobs, key))
    && (forall id :: id in w.sender.requests ==> RequestHolds(w.sender, jobs, id))
  }

  // A requestor asks again under a key only when its last transfer there is over.
  predicate Idle(l: Local) {
    l.inbox == [] && l.deletes == 0 && l.pending == None
  }

  predicate FairStep(w: World, ev: Event) {
    ev.Ask? ==> Idle(At(w, ev.key))
  }

  // The job of the touched key after the event.
  function NextJob(j: Job, ev: Event): Job {
    match ev
    case Ask(_, target) => Job(target, [], Asked)
    case Finish(_, data) => Job(j.target, data, if |data| > INCR_CHUNK_SIZE then Announced(2) else Small(3))
    case Deleted(_) => if OwnerMoves(j) then j.(stage := NextStage(j)) else j
    case Notified(_) => if RequestorMoves(j) then j.(stage := NextStage(j)) else j
  }

  function KeyOf(w: World, ev: Event): Option<Key> {
    match ev
    case Ask(key, _) => Some(key)
    case Finish(id, _) => if id in w.sender.requests then Some(w.sender.requests[id].key) else None
    case Deleted(key) => Some(key)
    case Notified(key) => Some(key)
  }

  function NextJobs(w: World, jobs: map<Key, Job>, ev: Event): map<Key, Job> {
    match KeyOf(w, ev)
    case None => jobs
    case Some(key) => jobs[key := NextJob(JobAt(jobs, key), ev)]
  }

  lemma AskKeeps(w: World, jobs: map<Key, Job>, key: Key, target: Atom)
    requires Inv(w, jobs) && Idle(At(w, key))
    ensures Inv(Step(w, Ask(key, target)), NextJobs(w, jobs, Ask(key, target)))
  {
    var w', jobs' := Step(w, Ask(key, target)), NextJobs(w, jobs, Ask(key, target));
    assert JobHolds(w, jobs, key);
    forall k ensures JobHolds(w', jobs', k) {
      assert JobHolds(w, jobs, k);
    }
    forall id | id in w'.sender.requests ensures RequestHolds(w'.sender, jobs', id) {
      if id in w.sender.requests {
        assert RequestHolds(w.sender, jobs, id);
      }
    }
  }

  lemma FinishKeeps(w: World, jobs: map<Key, Job>, id: nat, data: bytes)
    requires Inv(w, jobs) && id in w.sender.requests
    ensures Inv(Step(w, Finish(id, data)), NextJobs(w, jobs, Finish(id, data)))
  {
    var ev := Finish(id, data);
    var w', jobs' := Step(w, ev), NextJobs(w, jobs, ev);
    var req := w.sender.requests[id];
    assert RequestHolds(w.sender, jobs, id) && JobHolds(w, jobs, req.key);
    FinishLocal(jobs, w, id, data);
    forall k ensures JobHolds(w', jobs', k) {
      assert JobHolds(w, jobs, k);
      SnocTransfers(w.sender.transfers, Transfer(req, data, false), k);
    }
    forall other | other in w'.sender.requests ensures RequestHolds(w'.sender, jobs', other) {
      assert RequestHolds(w.sender, jobs, other);
    }
    SnocTransfers(w.sender.transfers, Transfer(req, data, false), req.key);
  }

  lemma SnocTransfers(ts: seq<Transfer>, t: Transfer, key: Key)
    requires DistinctKeys(ts) && TransferFor(ts, t.request.key) == None
    ensures DistinctKeys(ts + [t])
    ensures TransferFor(ts + [t], key) == if key == t.request.key then Some(t) else TransferFor(ts, key)
  {
    var i, j := Position(ts, key), Position(ts + [t], key);
    assert (ts + [t])[|ts|] == t;
    if i < |ts| {
      assert (ts + [t])[i] == ts[i];
    }
  }

  lemma FinishLocal(jobs: map<Key, Job>, w: World, id: nat, data: bytes)
    requires id in w.sender.requests && RequestHolds(w.sender, jobs, id) && JobHolds(w, jobs, w.sender.requests[id].key)
    ensures var key := w.sender.requests[id].key;
            && At(Step(w, Finish(id, data)), key) == LocalOf(NextJob(JobAt(jobs, key), Finish(id, data)))
            && JobOk(NextJob(JobAt(jobs, key), Finish(id, data)))
  {
    assert [] + [NewValue] + [SelectionNotify] == [NewValue, SelectionNotify];
    assert [] + [data] == [data];
  }

  lemma DeletedKeeps(w: World, jobs: map<Key, Job>, key: Key)
    requires Inv(w, jobs)
    ensures Inv(Step(w, Deleted(key)), NextJobs(w, jobs, Deleted(key)))
  {
    var w', jobs', j := Step(w, Deleted(key)), NextJobs(w, jobs, Deleted(key)), JobAt(jobs, key);
    assert JobHolds(w, jobs, key);
    DeleteAdvances(key, j);
    DeleteIsLocal(w.sender.transfers, key, key);
    if OwnerMoves(j) {
      AdvanceOk(j);
    }
    forall k ensures JobHolds(w', jobs', k) {
      assert JobHolds(w, jobs, k);
      DeleteIsLocal(w.sender.transfers, key, k);
    }
    RequestsKept(w, w', jobs, jobs', key);
  }

  lemma NotifiedKeeps(w: World, jobs: map<Key, Job>, key: Key)
    requires Inv(w, jobs)
    ensures Inv(Step(w, Notified(key)), NextJobs(w, jobs, Notified(key)))
  {
    var w', jobs', j := Step(w, Notified(key)), NextJobs(w, jobs, Notified(key)), JobAt(jobs, key);
    assert JobHolds(w, jobs, key);
    NotifyAdvances(j);
    if RequestorMoves(j) {
      AdvanceOk(j);
    }
    forall k ensures JobHolds(w', jobs', k) {
      assert JobHolds(w, jobs, k);
    }
    RequestsKept(w, w', jobs, jobs', key);
  }

  lemma RequestsKept(w: World, w': World, jobs: map<Key, Job>, jobs': map<Key, Job>, key: Key)
    requires Inv(w, jobs) && w'.sender.requests == w.sender.requests && w'.sender.nextId == w.sender.nextId
    requires forall k :: JobAt(jobs, k).stage.Asked? ==> JobAt(jobs', k) == JobAt(jobs, k)
    ensures forall id :: id in w'.sender.requests ==> RequestHolds(w'.sender, jobs', id)
  {
    forall id | id in w'.sender.requests ensures RequestHolds(w'.sender, jobs', id) {
      assert RequestHolds(w.sender, jobs, id);
    }
  }

  lemma StepKeeps(w: World, jobs: map<Key, Job>, ev: Event)
    requires Inv(w, jobs) && FairStep(w, ev)
    ensures Inv(Step(w, ev), NextJobs(w, jobs, ev))
  {
    match ev
    case Ask(key, target) => AskKeeps(w, jobs, key, target);
    case Finish(id, data) =>
      if id in w.sender.requests {
        FinishKeeps(w, jobs, id, data);
      }
    case Deleted(key) => DeletedKeeps(w, jobs, key);
    case Notified(key) => NotifiedKeeps(w, jobs, key);
  }

  ghost predicate FairAt(events: seq<Event>, i: nat)
    requires i < |events|
  {
    FairStep(Run(events[..i]), events[i])
  }

  ghost predicate Fair(events: seq<Event>) {
    forall i :: 0 <= i < |events| ==> FairAt(events, i)
  }

  lemma FairPrefix(events: seq<Event>)
    requires events != [] && Fair(events)
    ensures Fair(events[..|events| - 1])
  {
    var most := events[..|events| - 1];
    forall i | 0 <= i < |most| ensures FairAt(most, i) {
      assert FairAt(events, i) && most[..i] == events[..i];
    }
  }

  lemma {:induction false} RunInv(events: seq<Event>) returns (jobs: map<Key, Job>)
    requires Fair(events)
    ensures Inv(Run(events), jobs)
    decreases |events|
  {
    if events == [] {
      jobs := map[];
    } else {
      var n := |events| - 1;
      FairPrefix(events);
      var before := RunInv(events[..n]);
      assert FairAt(events, n);
      jobs := NextJobs(Run(events[..n]), before, events[n]);
      StepKeeps(Run(events[..n]), before, events[n]);
    }
  }

  // ---------------------------------------------------------------------
  // What every fair run guarantees
  // ---------------------------------------------------------------------

  // The chunks of a finished INCR transfer: full pieces, a last non-empty one, then an empty one.
  ghost predicate ChunkedWhole(chunks: seq<bytes>, data: bytes) {
    var n := Pieces(data);
    && |chunks| == n + 1
    && chunks[n] == []
    && Concat(chunks) == data
    && (forall i :: 0 <= i < n - 1 ==> |chunks[i]| == INCR_CHUNK_SIZE)
    && n > 0 && 0 < |chunks[n - 1]| <= INCR_CHUNK_SIZE
  }

  // Once data was handed over and nothing of its key is under way any more, the requestor has
  // written exactly that data, once; the owner has forgotten the transfer, and made it in
  // ceil(n / 65536) non-empty chunks and an empty one, after ceil(n / 65536) + 2 deletions.
  lemma EndToEnd(events: seq<Event>, key: Key)
    requires Fair(events) && Idle(At(Run(events), key)) && At(Run(events), key).given.Some?
    ensures var w := Run(events);
            var l, data := At(w, key), At(w, key).given.value;
            && l.written == [data]
            && TransferFor(w.sender.transfers, key) == None
            && if |data| > INCR_CHUNK_SIZE then l.handled == Pieces(data) + 2 && ChunkedWhole(l.chunks, data)
               else l.handled == 1 && l.chunks == [data]
  {
    var jobs := RunInv(events);
    assert JobHolds(Run(events), jobs, key);
    var data := JobAt(jobs, key).data;
    var n := Pieces(data);
    PiecesAreTheData(data, n);
    PieceCount(data, n);
    ConcatSnoc(FirstPieces(data, n), []);
    assert data[..|data|] + [] == data;
  }

  // What the requestor's client receives of a finished transfer is a prefix of the owner's data, as
  // much as its descriptor has room for, and all of it exactly when no write to it fails early.
  lemma ClientReceives(events: seq<Event>, key: Key, answers: seq<int>)
    requires Fair(events) && Idle(At(Run(events), key)) && At(Run(events), key).given.Some?
    ensures |At(Run(events), key).written| == 1
    ensures var l := At(Run(events), key);
            var data, got := l.given.value, WriteAll(l.written[0], answers);
            got <= data && (got == data <==> Room(answers) >= |data|)
  {
    EndToEnd(events, key);
    WriteAllIs(At(Run(events), key).given.value, answers);
  }

  // How many events of its own key a transfer still needs.
  function Distance(l: Local): int {
    if l.given.None? then 0
    else
      var data := l.given.value;
      if |data| <= INCR_CHUNK_SIZE then |l.inbox| + 1 - l.handled
      else if l.handled == Pieces(data) + 2 then 0
      else 2 * (Pieces(data) + 2 - l.handled) + |l.inbox| - 1
  }

  lemma DistanceIs(j: Job)
    requires JobOk(j)
    ensures Distance(LocalOf(j)) == Remaining(j)
  {}

  // No transfer gets stuck: until it is over, its owner or its requestor has something to handle,
  // and each of the two events takes it exactly one step closer.
  lemma Progress(events: seq<Event>, key: Key)
    requires Fair(events) && At(Run(events), key).given.Some?
    ensures var w := Run(events);
            var l := At(w, key);
            && Distance(l) >= 0
            && (Idle(l) <==> Distance(l) == 0)
            && (!Idle(l) ==> l.deletes > 0 || l.inbox != [])
            && (l.deletes > 0 ==> Distance(At(Step(w, Deleted(key)), key)) == Distance(l) - 1)
            && (l.inbox != [] ==> Distance(At(Step(w, Notified(key)), key)) == Distance(l) - 1)
  {
    var w := Run(events);
    var jobs := RunInv(events);
    var j := JobAt(jobs, key);
    assert JobHolds(w, jobs, key);
    DistanceIs(j);
    SomeoneMoves(j);
    IdleIffOver(j);
    NotifyAdvances(j);
    DeleteAdvances(key, j);
    if OwnerMoves(j) || RequestorMoves(j) {
      AdvanceOk(j);
      DistanceIs(j.(stage := NextStage(j)));
    }
    DeletedKeeps(w, jobs, key);
    assert JobHolds(Step(w, Deleted(key)), NextJobs(w, jobs, Deleted(key)), key);
  }

  lemma IdleIffOver(j: Job)
    requires JobOk(j) && LocalOf(j).given.Some?
    ensures Idle(LocalOf(j)) <==> Remaining(j) == 0
  {}

  // An event of one key leaves every other key's transfer exactly as it was.
  lemma Undisturbed(events: seq<Event>, ev: Event, key: Key)
    requires Fair(events) && FairStep(Run(events), ev) && KeyOf(Run(events), ev) != Some(key)
    ensures var w, w' := Run(events), Step(Run(events), ev);
            At(w', key) == At(w, key) && TransferFor(w'.sender.transfers, key) == TransferFor(w.sender.transfers, key)
  {
    var w := Run(events);
    var jobs := RunInv(events);
    assert JobHolds(w, jobs, key);
    StepKeeps(w, jobs, ev);
    assert JobHolds(Step(w, ev), NextJobs(w, jobs, ev), key);
  }
}
