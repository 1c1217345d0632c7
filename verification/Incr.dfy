// X11 selection transfers, both ends: data over 64 KiB goes through one window property chunk by
// chunk, the requestor's deletion of the property asking for the next one (ICCCM section 2.7.2,
// "INCR Properties").

module Incr {
  import opened Prelude

  const INCR_CHUNK_SIZE: nat := 64 * 1024

  type Atom = nat

  // The requestor's window and the property it named.
  datatype Key = Key(window: nat, property: Atom)

  datatype Request = Request(key: Key, target: Atom)

  datatype Transfer = Transfer(request: Request, data: bytes, flushOnDelete: bool)

  datatype Value = IncrSize(size: u32) | Content(target: Atom, data: bytes)

  // ---------------------------------------------------------------------
  // Owner side
  // ---------------------------------------------------------------------

  datatype Sender = Sender(nextId: nat, requests: map<nat, Request>, transfers: seq<Transfer>)

  // A property write on the requestor's window, and whether a SelectionNotify that names the
  // property follows it.
  datatype Put = Put(key: Key, value: Value, notify: bool)

  function Position(ts: seq<Transfer>, key: Key): (i: nat)
    ensures i <= |ts|
    ensures i < |ts| ==> ts[i].request.key == key
    ensures forall j :: 0 <= j < i ==> ts[j].request.key != key
  {
    if ts == [] || ts[0].request.key == key then 0 else 1 + Position(ts[1..], key)
  }

  // Removes index `i` by moving the last element into its place.
  function SwapRemove(ts: seq<Transfer>, i: nat): (r: seq<Transfer>)
    requires i < |ts|
    ensures |r| == |ts| - 1
    ensures forall j :: 0 <= j < |r| ==> r[j] == if j == i then ts[|ts| - 1] else ts[j]
  {
    var most := ts[..|ts| - 1];
    if i == |ts| - 1 then most else most[i := ts[|ts| - 1]]
  }

  function Complete(s: Sender, id: nat, data: bytes): (Sender, Option<Put>) {
    if id !in s.requests then (s, None)
    else
      var req := s.requests[id];
      var s' := s.(requests := s.requests - {id});
      if |data| > INCR_CHUNK_SIZE then
        (s'.(transfers := s.transfers + [Transfer(req, data, false)]),
         Some(Put(req.key, IncrSize(|data| % 0x1_0000_0000), true)))
      else (s', Some(Put(req.key, Content(req.target, data), true)))
  }

  function ChunkEnd(data: bytes): nat {
    if |data| < INCR_CHUNK_SIZE then |data| else INCR_CHUNK_SIZE
  }

  // What a deletion does to the transfer it belongs to, and the next value written.
  function OnDelete(t: Transfer): (Option<Transfer>, Option<Value>) {
    if t.flushOnDelete then (None, None)
    else if t.data == [] then (Some(t.(flushOnDelete := true)), Some(Content(t.request.target, [])))
    else
      var n := ChunkEnd(t.data);
      (Some(t.(data := t.data[n..])), Some(Content(t.request.target, t.data[..n])))
  }

  function HandleDelete(ts: seq<Transfer>, key: Key): (seq<Transfer>, Option<Value>) {
    var i := Position(ts, key);
    if i == |ts| then (ts, None)
    else
      match OnDelete(ts[i])
      case (None, v) => (SwapRemove(ts, i), v)
      case (Some(t), v) => (ts[i := t], v)
  }

  // ---------------------------------------------------------------------
  // Requestor side
  // ---------------------------------------------------------------------

  datatype Pending = Pending(incr: bool, data: bytes)

  datatype Notice = NewValue | SelectionNotify

  // What becomes of a pending conversion, and the bytes written to the client's descriptor.
  datatype Received = Received(pending: Option<Pending>, written: Option<bytes>)

  function ContentOf(v: Option<Value>): bytes {
    match v
    case None => []
    case Some(IncrSize(n)) => EncodeUInt(Little, n, 4)
    case Some(Content(_, d)) => d
  }

  // Whether the notice makes the requestor read (and thereby delete) the property.
  predicate Reads(p: Option<Pending>, n: Notice) {
    p.Some? && (n.SelectionNotify? || p.value.incr)
  }

  function OnNotice(p: Option<Pending>, n: Notice, reply: Option<Value>): Received {
    if !Reads(p, n) then Received(p, None)
    else if n.SelectionNotify? then
      if reply.Some? && reply.value.IncrSize? then Received(Some(Pending(true, [])), None)
      else Received(None, Some(p.value.data + ContentOf(reply)))
    else if ContentOf(reply) == [] then Received(None, Some(p.value.data))
    else Received(Some(p.value.(data := p.value.data + ContentOf(reply))), None)
  }

  // ---------------------------------------------------------------------
  // The state machines of the code
  // ---------------------------------------------------------------------

  class Outgoing {
    var nextOutgoingId: nat
    var outgoingRequests: map<nat, Request>
    var incrOutgoing: seq<Transfer>

    function Abstract(): Sender
      reads this
    {
      Sender(nextOutgoingId, outgoingRequests, incrOutgoing)
    }

    constructor ()
      ensures Abstract() == Sender(0, map[], [])
    {
      nextOutgoingId, outgoingRequests, incrOutgoing := 0, map[], [];
    }

    method CompleteOutgoing(id: nat, data: bytes) returns (put: Option<Put>)
      modifies this
      ensures (Abstract(), put) == Complete(old(Abstract()), id, data)
    {
      if id !in outgoingRequests {
        return None;
      }
      var req := outgoingRequests[id];
      outgoingRequests := outgoingRequests - {id};
      if |data| > INCR_CHUNK_SIZE {
        incrOutgoing := incrOutgoing + [Transfer(req, data, false)];
        return Some(Put(req.key, IncrSize(|data| % 0x1_0000_0000), true));
      }
      return Some(Put(req.key, Content(req.target, data), true));
    }

    method HandleOutgoingPropertyDelete(key: Key) returns (v: Option<Value>)
      modifies this
      ensures (incrOutgoing, v) == HandleDelete(old(incrOutgoing), key)
      ensures nextOutgoingId == old(nextOutgoingId) && outgoingRequests == old(outgoingRequests)
    {
      var idx := 0;
      while idx < |incrOutgoing| && incrOutgoing[idx].request.key != key
        invariant idx <= |incrOutgoing|
        invariant forall j :: 0 <= j < idx ==> incrOutgoing[j].request.key != key
      {
        idx := idx + 1;
      }
      assert idx == Position(incrOutgoing, key);
      if idx == |incrOutgoing| {
        return None;
      }
      var transfer := incrOutgoing[idx];
      if transfer.flushOnDelete {
        incrOutgoing := SwapRemove(incrOutgoing, idx);
        return None;
      }
      if transfer.data == [] {
        incrOutgoing := incrOutgoing[idx := transfer.(flushOnDelete := true)];
        return Some(Content(transfer.request.target, []));
      }
      var chunkEnd := ChunkEnd(transfer.data);
      incrOutgoing := incrOutgoing[idx := transfer.(data := transfer.data[chunkEnd..])];
      return Some(Content(transfer.request.target, transfer.data[..chunkEnd]));
    }
  }

  // What reading the property answered: no reply, or its value if it exists.
  datatype Reply = Unreadable | Readable(value: Option<Value>)

  // A reply that cannot be read drops the conversion.
  function After(p: Option<Pending>, n: Notice, reply: Reply): Received {
    match reply
    case Unreadable => if Reads(p, n) then Received(None, None) else Received(p, None)
    case Readable(value) => OnNotice(p, n, value)
  }

  // A conversion asked for: the selection, and the property of the requestor's own window.
  datatype Convert = Convert(selection: Atom, property: Atom)

  const NONE: Atom := 0

  datatype Conversion = Targets | Data(pending: Pending)

  class Incoming {
    var pendingConverts: map<Convert, Conversion>

    function At(key: Convert): Option<Pending>
      reads this
    {
      if key in pendingConverts && pendingConverts[key].Data? then Some(pendingConverts[key].pending) else None
    }

    constructor ()
      ensures pendingConverts == map[]
    {
      pendingConverts := map[];
    }

    // `reply` is the property's value, read only when `Reads` says so. No property means that the
    // conversion failed; a reply about targets carries no data.
    method OnSelectionNotify(key: Convert, reply: Reply) returns (written: Option<bytes>)
      modifies this
      ensures key.property != NONE ==> Received(At(key), written) == After(old(At(key)), SelectionNotify, reply)
      ensures old(At(key)).None? || key.property == NONE ==> key !in pendingConverts && written == None
      ensures pendingConverts - {key} == old(pendingConverts) - {key}
    {
      written := None;
      if key !in pendingConverts {
        return;
      }
      var conversion := pendingConverts[key];
      pendingConverts := pendingConverts - {key};
      if key.property == NONE || conversion.Targets? || reply.Unreadable? {
        return;
      }
      if reply.value.Some? && reply.value.value.IncrSize? {
        pendingConverts := pendingConverts[key := Data(Pending(true, []))];
        return;
      }
      written := Some(conversion.pending.data + ContentOf(reply.value));
    }

    predicate InIncr(key: Convert, property: Atom)
      reads this
    {
      key.property == property && At(key).Some? && At(key).value.incr
    }

    // `key` is the conversion in INCR mode that the property belongs to, if there is one.
    method HandleIncrChunk(property: Atom, reply: Reply) returns (written: Option<bytes>, ghost key: Option<Convert>)
      modifies this
      ensures key.None? <==> forall k :: k in old(pendingConverts) ==> !old(InIncr(k, property))
      ensures key.None? ==> pendingConverts == old(pendingConverts) && written == None
      ensures key.Some? ==>
                && old(InIncr(key.value, property))
                && Received(At(key.value), written) == After(old(At(key.value)), NewValue, reply)
                && pendingConverts - {key.value} == old(pendingConverts) - {key.value}
    {
      written, key := None, None;
      if k :| k in pendingConverts && InIncr(k, property) {
        key := Some(k);
        var pending := pendingConverts[k].pending;
        if reply.Unreadable? {
          pendingConverts := pendingConverts - {k};
          return;
        }
        var value := ContentOf(reply.value);
        if value == [] {
          pendingConverts := pendingConverts - {k};
          written := Some(pending.data);
        } else {
          pendingConverts := pendingConverts[k := Data(pending.(data := pending.data + value))];
        }
      }
    }
  }

  // ---------------------------------------------------------------------
  // Writing to the client's descriptor
  // ---------------------------------------------------------------------

  // The bytes that successive write calls take; a call that takes none ends the loop.
  function WriteAll(data: bytes, answers: seq<int>): bytes
    decreases |answers|
  {
    if data == [] || answers == [] || answers[0] <= 0 then []
    else
      var n := if answers[0] < |data| then answers[0] else |data|;
      data[..n] + WriteAll(data[n..], answers[1..])
  }

  // How many bytes the descriptor takes before a write fails.
  function Room(answers: seq<int>): nat {
    if answers == [] || answers[0] <= 0 then 0 else answers[0] + Room(answers[1..])
  }

  lemma TakeTake(data: bytes, n: nat, m: nat)
    requires n <= |data| && m <= |data| - n
    ensures data[..n] + data[n..][..m] == data[..n + m]
  {}

  // What reaches the client is always a prefix, as long as the descriptor has room; it is the
  // whole exactly when no write fails early.
  lemma {:induction false} WriteAllIs(data: bytes, answers: seq<int>)
    ensures WriteAll(data, answers) == data[..if Room(answers) < |data| then Room(answers) else |data|]
    ensures WriteAll(data, answers) == data <==> Room(answers) >= |data|
    decreases |answers|
  {
    if data != [] && answers != [] && answers[0] > 0 {
      var n := if answers[0] < |data| then answers[0] else |data|;
      var rest := Room(answers[1..]);
      WriteAllIs(data[n..], answers[1..]);
      TakeTake(data, n, if rest < |data| - n then rest else |data| - n);
    }
  }

  // Best-effort write to the client's descriptor, the kernel's answers in order; `offset` says how
  // much of the data was written.
  method WriteAllToFd(data: bytes, answers: seq<int>) returns (offset: nat)
    ensures offset <= |data| && data[..offset] == WriteAll(data, answers)
    ensures offset == if Room(answers) < |data| then Room(answers) else |data|
  {
    offset := 0;
    ghost var written: bytes := [];
    WriteAllIs(data, answers);
    var script := answers;
    while offset < |data|
      invariant offset <= |data| && written == data[..offset]
      invariant WriteAll(data, answers) == written + WriteAll(data[offset..], script)
      decreases |script|
    {
      if script == [] || script[0] <= 0 {
        assert written + [] == written;
        return;
      }
      var left := |data| - offset;
      var n := if script[0] < left then script[0] else left;
      WriteNext(data, offset, n, written, WriteAll(data[offset + n..], script[1..]));
      script := script[1..];
      written := written + data[offset..offset + n];
      offset := offset + n;
    }
    assert written + [] == written;
  }

  lemma WriteNext(data: bytes, offset: nat, n: nat, written: bytes, more: bytes)
    requires offset + n <= |data| && written == data[..offset]
    ensures data[offset..][..n] == data[offset..offset + n] && data[offset..][n..] == data[offset + n..]
    ensures written + (data[offset..offset + n] + more) == (written + data[offset..offset + n]) + more
    ensures written + data[offset..offset + n] == data[..offset + n]
  {}

  // The announcement of a large transfer is the size of the data, for the requestor that asked, and
  // the small one's value is the data with the target that was asked for.
  lemma Announces(s: Sender, id: nat, data: bytes)
    requires id in s.requests && |data| < 0x1_0000_0000
    ensures var (s', put) := Complete(s, id, data);
            && put.Some? && put.value.key == s.requests[id].key && put.value.notify
            && (|data| > 65536 ==> DecodeUInt(Little, ContentOf(Some(put.value.value))) == |data|)
            && (|data| <= 65536 ==> put.value.value == Content(s.requests[id].target, data))
            && id !in s'.requests
  {
    SizeReads(|data|);
  }

  lemma SizeReads(n: nat)
    requires n < 0x1_0000_0000
    ensures DecodeUInt(Little, EncodeUInt(Little, n, 4)) == n
  {
    Pow256Small();
    UIntRoundTrip(Little, n, 4);
  }

  // ---------------------------------------------------------------------
  // Transfers do not disturb each other
  // ---------------------------------------------------------------------

  function TransferFor(ts: seq<Transfer>, key: Key): Option<Transfer> {
    var i := Position(ts, key);
    if i < |ts| then Some(ts[i]) else None
  }

  ghost predicate DistinctKeys(ts: seq<Transfer>) {
    forall i, j :: 0 <= i < j < |ts| ==> ts[i].request.key != ts[j].request.key
  }

  lemma TransferIs(ts: seq<Transfer>, i: nat)
    requires DistinctKeys(ts) && i < |ts|
    ensures Position(ts, ts[i].request.key) == i
  {}

  lemma TransferKept(ts: seq<Transfer>, us: seq<Transfer>, key: Key)
    requires DistinctKeys(ts) && DistinctKeys(us)
    requires forall t: Transfer :: t.request.key == key ==> (t in ts <==> t in us)
    ensures TransferFor(ts, key) == TransferFor(us, key)
  {
    var i, j := Position(ts, key), Position(us, key);
    if i < |ts| {
      assert ts[i] in us;
    }
    if j < |us| {
      assert us[j] in ts;
    }
  }

  lemma SwapRemoveMembers(ts: seq<Transfer>, i: nat)
    requires DistinctKeys(ts) && i < |ts|
    ensures DistinctKeys(SwapRemove(ts, i))
    ensures forall t :: t in SwapRemove(ts, i) <==> t in ts && t.request.key != ts[i].request.key
  {
    var r, last := SwapRemove(ts, i), |ts| - 1;
    forall t | t in ts && t.request.key != ts[i].request.key ensures t in r {
      var j :| 0 <= j < |ts| && ts[j] == t;
      assert r[if j == last then i else j] == t;
    }
    forall t | t in r ensures t in ts && t.request.key != ts[i].request.key {
      var j :| 0 <= j < |r| && r[j] == t;
      assert t == ts[if j == i then last else j];
    }
  }

  // A deletion moves the transfer it belongs to and leaves every other one as it was, wherever
  // `swap_remove` puts it.
  lemma DeleteIsLocal(ts: seq<Transfer>, key: Key, other: Key)
    requires DistinctKeys(ts)
    ensures var (ts', v) := HandleDelete(ts, key);
            && DistinctKeys(ts')
            && (other != key ==> TransferFor(ts', other) == TransferFor(ts, other))
            && match TransferFor(ts, key)
               case None => ts' == ts && v == None
               case Some(t) => (TransferFor(ts', key), v) == OnDelete(t)
  {
    var i := Position(ts, key);
    if i < |ts| {
      var ts' := HandleDelete(ts, key).0;
      if OnDelete(ts[i]).0.None? {
        SwapRemoveMembers(ts, i);
        TransferGone(ts', key);
      } else {
        UpdateMembers(ts, i, OnDelete(ts[i]).0.value);
        TransferIs(ts', i);
      }
      if other != key {
        TransferKept(ts, ts', other);
      }
    }
  }

  lemma TransferGone(ts: seq<Transfer>, key: Key)
    requires forall t :: t in ts ==> t.request.key != key
    ensures TransferFor(ts, key) == None
  {
    assert forall j :: 0 <= j < |ts| ==> ts[j] in ts;
  }

  lemma UpdateMembers(ts: seq<Transfer>, i: nat, t: Transfer)
    requires DistinctKeys(ts) && i < |ts| && t.request.key == ts[i].request.key
    ensures DistinctKeys(ts[i := t])
    ensures forall u: Transfer :: u.request.key != t.request.key ==> (u in ts <==> u in ts[i := t])
  {
    forall u: Transfer | u.request.key != t.request.key && u in ts ensures u in ts[i := t] {
      var j :| 0 <= j < |ts| && ts[j] == u;
      assert ts[i := t][j] == u;
    }
  }
}
