// ext-workspace-v1, bar side: events edit the entry they name; new workspaces wait in a pending
// list until `done` merges them and sorts.

module WorkspaceBar {
  import opened Prelude
  import opened Decimal
  import opened WorkspaceServer

  datatype Tile = Tile(handle: Handle, id: u64, name: bytes, active: bool)

  datatype Bar = Bar(pending: seq<Tile>, tiles: seq<Tile>)

  const EMPTY := Bar([], [])

  // Text after the last dash, or all of it.
  function LastToken(s: bytes): (t: bytes)
    ensures |t| <= |s|
  {
    if s == [] then []
    else if s[|s| - 1] == '-' as u8 then []
    else LastToken(s[..|s| - 1]) + [s[|s| - 1]]
  }

  // Unknown formats give 0.
  function ParseId(wire: bytes): u64 {
    match ParseU64(LastToken(wire))
    case Some(n) => n
    case None => 0
  }

  // Index of the entry with the handle.
  function Position(ts: seq<Tile>, h: Handle): (i: nat)
    ensures i <= |ts|
    ensures i < |ts| ==> ts[i].handle == h
    ensures forall j :: 0 <= j < i ==> ts[j].handle != h
  {
    if ts == [] || ts[0].handle == h then 0 else 1 + Position(ts[1..], h)
  }

  function Retain(ts: seq<Tile>, h: Handle): seq<Tile> {
    if ts == [] then []
    else (if ts[0].handle == h then [] else [ts[0]]) + Retain(ts[1..], h)
  }

  // Where a tile goes in a sorted list: after every tile whose id is not greater.
  function SlotFor(ts: seq<Tile>, id: u64): (k: nat)
    ensures k <= |ts|
    ensures forall j :: 0 <= j < k ==> ts[j].id <= id
    ensures k < |ts| ==> ts[k].id > id
  {
    if ts == [] || ts[0].id > id then 0 else 1 + SlotFor(ts[1..], id)
  }

  function InsertAt(ts: seq<Tile>, k: nat, t: Tile): (r: seq<Tile>)
    requires k <= |ts|
    ensures |r| == |ts| + 1 && r[k] == t
    ensures forall i :: 0 <= i < k ==> r[i] == ts[i]
    ensures forall i :: k < i < |r| ==> r[i] == ts[i - 1]
  {
    ts[..k] + [t] + ts[k..]
  }

  function Insert(ts: seq<Tile>, t: Tile): seq<Tile> {
    InsertAt(ts, SlotFor(ts, t.id), t)
  }

  // Stable sort by id.
  function SortById(ts: seq<Tile>): seq<Tile>
    decreases |ts|
  {
    if ts == [] then [] else Insert(SortById(ts[..|ts| - 1]), ts[|ts| - 1])
  }

  // The pending list is searched first.
  function Edit(b: Bar, h: Handle, edit: Tile -> Tile): Bar {
    var i, j := Position(b.pending, h), Position(b.tiles, h);
    if i < |b.pending| then b.(pending := b.pending[i := edit(b.pending[i])])
    else if j < |b.tiles| then b.(tiles := b.tiles[j := edit(b.tiles[j])])
    else b
  }

  function SetId(wire: bytes): Tile -> Tile {
    (t: Tile) => t.(id := ParseId(wire))
  }

  function SetName(name: bytes): Tile -> Tile {
    (t: Tile) => t.(name := name)
  }

  function SetActive(active: bool): Tile -> Tile {
    (t: Tile) => t.(active := active)
  }

  function Dispatch(b: Bar, ev: Event): Bar {
    match ev
    case Created(h) => b.(pending := b.pending + [Tile(h, 0, [], false)])
    case IdIs(h, wire) => Edit(b, h, SetId(wire))
    case NameIs(h, name) => Edit(b, h, SetName(name))
    case StateIs(h, active) => Edit(b, h, SetActive(active))
    case Removed(h) => Bar(Retain(b.pending, h), Retain(b.tiles, h))
    case Done => Bar([], SortById(b.tiles + b.pending))
    case Finished => b.(tiles := [])
    case _ => b
  }

  function Replay(b: Bar, evs: seq<Event>): Bar
    decreases |evs|
  {
    if evs == [] then b else Replay(Dispatch(b, evs[0]), evs[1..])
  }

  lemma {:induction false} ReplayAppend(b: Bar, a: seq<Event>, c: seq<Event>)
    ensures Replay(b, a + c) == Replay(Replay(b, a), c)
    decreases |a|
  {
    if a == [] {
      assert a + c == c;
    } else {
      ReplayAppend(Dispatch(b, a[0]), a[1..], c);
      assert (a + c)[0] == a[0] && (a + c)[1..] == a[1..] + c;
    }
  }

  lemma ReplayOne(b: Bar, ev: Event)
    ensures Replay(b, [ev]) == Dispatch(b, ev)
  {
    assert [ev][1..] == [];
  }

  lemma ReplayCons(b: Bar, ev: Event, evs: seq<Event>)
    ensures Replay(b, [ev] + evs) == Replay(Dispatch(b, ev), evs)
  {
    assert ([ev] + evs)[1..] == evs;
  }

  // ---------------------------------------------------------------------
  // Ids on the wire
  // ---------------------------------------------------------------------

  lemma {:induction false} LastTokenOfWord(s: bytes, w: bytes)
    requires forall i :: 0 <= i < |w| ==> w[i] != '-' as u8
    ensures LastToken(s + ['-' as u8] + w) == w
    decreases |w|
  {
    var all := s + ['-' as u8] + w;
    if w != [] {
      var n := |w| - 1;
      LastTokenOfWord(s, w[..n]);
      assert all[..|all| - 1] == s + ['-' as u8] + w[..n];
      assert w[..n] + [w[n]] == w;
    }
  }

  // Every workspace id survives the trip through its wire name.
  lemma ParseIdOfWire(id: u64)
    ensures ParseId(WireId(id)) == id
  {
    var head := Ascii("emskin-ws");
    assert ID_PREFIX == head + ['-' as u8];
    LastTokenOfWord(head, Print(id));
    ParseOfPrint(id);
  }

  // ---------------------------------------------------------------------
  // Sorting
  // ---------------------------------------------------------------------

  ghost predicate Sorted(ts: seq<Tile>) {
    forall i, j :: 0 <= i < j < |ts| ==> ts[i].id <= ts[j].id
  }

  ghost predicate DistinctHandles(ts: seq<Tile>) {
    forall i, j :: 0 <= i < j < |ts| ==> ts[i].handle != ts[j].handle
  }

  ghost predicate SameTiles(a: seq<Tile>, b: seq<Tile>) {
    forall t :: t in a <==> t in b
  }

  lemma {:induction false} SortIsSorted(ts: seq<Tile>)
    ensures Sorted(SortById(ts)) && SameTiles(SortById(ts), ts)
    decreases |ts|
  {
    if ts != [] {
      var n := |ts| - 1;
      var most := SortById(ts[..n]);
      SortIsSorted(ts[..n]);
      InsertSorted(most, SlotFor(most, ts[n].id), ts[n]);
      InsertMembers(most, SlotFor(most, ts[n].id), ts[n]);
      assert ts == ts[..n] + [ts[n]];
    }
  }

  // The entries with an id, in order.
  function WithId(ts: seq<Tile>, id: u64): seq<Tile> {
    if ts == [] then [] else (if ts[0].id == id then [ts[0]] else []) + WithId(ts[1..], id)
  }

  lemma {:induction false} WithIdAppend(a: seq<Tile>, b: seq<Tile>, id: u64)
    ensures WithId(a + b, id) == WithId(a, id) + WithId(b, id)
  {
    if a == [] {
      assert a + b == b;
    } else {
      var first := if a[0].id == id then [a[0]] else [];
      WithIdAppend(a[1..], b, id);
      assert (a + b)[0] == a[0] && (a + b)[1..] == a[1..] + b;
      Assoc(first, WithId(a[1..], id), WithId(b, id));
    }
  }

  lemma {:induction false} WithIdNone(ts: seq<Tile>, id: u64)
    requires forall i :: 0 <= i < |ts| ==> ts[i].id != id
    ensures WithId(ts, id) == []
  {
    if ts != [] {
      WithIdNone(ts[1..], id);
    }
  }

  lemma WithIdThree(a: seq<Tile>, t: Tile, b: seq<Tile>, id: u64)
    requires t.id == id ==> forall i :: 0 <= i < |b| ==> b[i].id != id
    ensures WithId(a + [t] + b, id) == WithId(a + b, id) + WithId([t], id)
  {
    WithIdAppend(a + [t], b, id);
    WithIdAppend(a, [t], id);
    WithIdAppend(a, b, id);
    if t.id == id {
      WithIdNone(b, id);
    } else {
      WithIdNone([t], id);
    }
    SwapEmpty(WithId(a, id), WithId([t], id), WithId(b, id));
  }

  lemma SwapEmpty(x: seq<Tile>, y: seq<Tile>, z: seq<Tile>)
    requires y == [] || z == []
    ensures (x + y) + z == (x + z) + y
  {
    if y == [] {
      assert x + y == x && (x + z) + y == x + z;
    } else {
      assert x + z == x && (x + y) + z == x + y;
    }
  }

  lemma MultisetThree(a: seq<Tile>, t: Tile, b: seq<Tile>)
    ensures multiset(a + [t] + b) == multiset(a + b) + multiset([t])
  {}

  // Inserting behind every entry whose id is not greater keeps the order of equal ids.
  lemma InsertIsStable(ts: seq<Tile>, k: nat, t: Tile, id: u64)
    requires k <= |ts| && forall i :: k <= i < |ts| ==> ts[i].id > t.id
    ensures WithId(InsertAt(ts, k, t), id) == WithId(ts, id) + WithId([t], id)
    ensures multiset(InsertAt(ts, k, t)) == multiset(ts) + multiset([t])
  {
    var a, b := ts[..k], ts[k..];
    assert a + b == ts;
    WithIdThree(a, t, b, id);
    MultisetThree(a, t, b);
  }

  lemma SlotIsLast(ts: seq<Tile>, id: u64)
    requires Sorted(ts)
    ensures forall i :: SlotFor(ts, id) <= i < |ts| ==> ts[i].id > id
  {}

  // Sorting is by id, loses and adds no entry, and keeps entries with the same id in their order.
  lemma {:induction false} StableSort(ts: seq<Tile>, id: u64)
    ensures Sorted(SortById(ts)) && multiset(SortById(ts)) == multiset(ts)
    ensures WithId(SortById(ts), id) == WithId(ts, id)
    decreases |ts|
  {
    SortIsSorted(ts);
    if ts != [] {
      var n := |ts| - 1;
      StableSort(ts[..n], id);
      SortIsSorted(ts[..n]);
      SlotIsLast(SortById(ts[..n]), ts[n].id);
      InsertIsStable(SortById(ts[..n]), SlotFor(SortById(ts[..n]), ts[n].id), ts[n], id);
      WithIdAppend(ts[..n], [ts[n]], id);
      assert ts == ts[..n] + [ts[n]];
    }
  }

  lemma {:induction false} SortKeepsDistinct(ts: seq<Tile>)
    requires DistinctHandles(ts)
    ensures DistinctHandles(SortById(ts))
    decreases |ts|
  {
    if ts != [] {
      var n := |ts| - 1;
      var most := SortById(ts[..n]);
      SortKeepsDistinct(ts[..n]);
      SortIsSorted(ts[..n]);
      forall x | x in most ensures x.handle != ts[n].handle {
        assert x in ts[..n];
      }
      InsertDistinct(most, SlotFor(most, ts[n].id), ts[n]);
    }
  }

  lemma InsertSorted(ts: seq<Tile>, k: nat, t: Tile)
    requires Sorted(ts) && k <= |ts|
    requires forall j :: 0 <= j < k ==> ts[j].id <= t.id
    requires k < |ts| ==> ts[k].id > t.id
    ensures Sorted(InsertAt(ts, k, t))
  {
    var r := InsertAt(ts, k, t);
    forall i, j | 0 <= i < j < |r| ensures r[i].id <= r[j].id {
      if j > k && i < k {
        assert ts[i].id <= ts[j - 1].id;
      } else if j > k && i > k {
        assert ts[i - 1].id <= ts[j - 1].id;
      }
    }
  }

  lemma InsertMembers(ts: seq<Tile>, k: nat, t: Tile)
    requires k <= |ts|
    ensures forall x :: x in InsertAt(ts, k, t) <==> x in ts || x == t
  {
    assert ts == ts[..k] + ts[k..];
  }

  lemma InsertDistinct(ts: seq<Tile>, k: nat, t: Tile)
    requires k <= |ts| && DistinctHandles(ts) && forall x :: x in ts ==> x.handle != t.handle
    ensures DistinctHandles(InsertAt(ts, k, t))
  {
    var r := InsertAt(ts, k, t);
    forall i, j | 0 <= i < j < |r| ensures r[i].handle != r[j].handle {
      if i == k {
        assert r[j] == ts[j - 1];
      } else if j == k {
        assert r[i] == ts[i];
      } else {
        var i', j' := if i < k then i else i - 1, if j < k then j else j - 1;
        assert r[i] == ts[i'] && r[j] == ts[j'];
      }
    }
  }

  // ---------------------------------------------------------------------
  // The bar as a table
  // ---------------------------------------------------------------------

  // Each entry of the table is shown exactly once, committed or pending.
  ghost predicate Sees(b: Bar, m: map<Handle, Tile>) {
    Table(b.tiles + b.pending, m)
  }

  ghost predicate Table(all: seq<Tile>, m: map<Handle, Tile>) {
    && DistinctHandles(all)
    && (forall t :: t in all ==> t.handle in m && m[t.handle] == t)
    && (forall h :: h in m ==> m[h] in all && m[h].handle == h)
  }

  lemma {:induction false} RetainAll(ts: seq<Tile>, h: Handle)
    requires forall i :: 0 <= i < |ts| ==> ts[i].handle != h
    ensures Retain(ts, h) == ts
  {
    if ts != [] {
      RetainAll(ts[1..], h);
    }
  }

  lemma {:induction false} RetainIs(ts: seq<Tile>, h: Handle)
    requires DistinctHandles(ts)
    ensures var i := Position(ts, h);
            Retain(ts, h) == if i < |ts| then ts[..i] + ts[i + 1..] else ts
  {
    if ts != [] {
      if ts[0].handle == h {
        RetainAll(ts[1..], h);
      } else {
        var rest := ts[1..];
        var i := Position(rest, h);
        RetainIs(rest, h);
        assert ts == [ts[0]] + rest;
        if i < |rest| {
          assert ts[..i + 1] == [ts[0]] + rest[..i] && ts[i + 2..] == rest[i + 1..];
          Assoc([ts[0]], rest[..i], rest[i + 1..]);
        }
      }
    }
  }

  lemma {:induction false} RetainAppend(a: seq<Tile>, b: seq<Tile>, h: Handle)
    ensures Retain(a + b, h) == Retain(a, h) + Retain(b, h)
  {
    if a == [] {
      assert a + b == b;
    } else {
      var first := if a[0].handle == h then [] else [a[0]];
      RetainAppend(a[1..], b, h);
      assert (a + b)[0] == a[0] && (a + b)[1..] == a[1..] + b;
      Assoc(first, Retain(a[1..], h), Retain(b, h));
    }
  }

  lemma SeesCreated(b: Bar, m: map<Handle, Tile>, h: Handle)
    requires Sees(b, m) && h !in m
    ensures Sees(Dispatch(b, Created(h)), m[h := Tile(h, 0, [], false)])
  {
    Assoc(b.tiles, b.pending, [Tile(h, 0, [], false)]);
    TableSnoc(b.tiles + b.pending, m, Tile(h, 0, [], false));
  }

  lemma TableSnoc(all: seq<Tile>, m: map<Handle, Tile>, t: Tile)
    requires Table(all, m) && t.handle !in m
    ensures Table(all + [t], m[t.handle := t])
  {
    assert (all + [t])[|all|] == t;
  }

  lemma SeesEdit(b: Bar, m: map<Handle, Tile>, h: Handle, edit: Tile -> Tile)
    requires Sees(b, m) && h in m && edit(m[h]).handle == h
    ensures Sees(Edit(b, h, edit), m[h := edit(m[h])])
  {
    var all := b.tiles + b.pending;
    var i, j := Position(b.pending, h), Position(b.tiles, h);
    var at := if i < |b.pending| then |b.tiles| + i else j;
    TableAt(all, m, h, at);
    TableUpdate(all, m, at, edit(m[h]));
    UpdateLeft(b.tiles, b.pending, j, edit(m[h]));
    UpdateRight(b.tiles, b.pending, i, edit(m[h]));
  }

  lemma UpdateLeft(a: seq<Tile>, b: seq<Tile>, i: nat, t: Tile)
    ensures i < |a| ==> a[i := t] + b == (a + b)[i := t]
  {}

  lemma UpdateRight(a: seq<Tile>, b: seq<Tile>, i: nat, t: Tile)
    ensures i < |b| ==> a + b[i := t] == (a + b)[|a| + i := t]
  {}

  // A handle of the table has one entry, and it is at any index where that handle is found.
  lemma TableAt(all: seq<Tile>, m: map<Handle, Tile>, h: Handle, at: nat)
    requires Table(all, m) && h in m
    requires at < |all| ==> all[at].handle == h
    requires at >= |all| ==> forall j :: 0 <= j < |all| ==> all[j].handle != h
    ensures at < |all| && all[at] == m[h]
  {
    var k :| 0 <= k < |all| && all[k] == m[h];
    assert all[k].handle == h;
  }

  lemma TableUpdate(all: seq<Tile>, m: map<Handle, Tile>, at: nat, t: Tile)
    requires Table(all, m) && at < |all| && t.handle == all[at].handle
    ensures Table(all[at := t], m[t.handle := t])
  {
    var all', m' := all[at := t], m[t.handle := t];
    forall h | h in m' ensures m'[h] in all' {
      if h == t.handle {
        assert all'[at] == t;
      } else {
        var k :| 0 <= k < |all| && all[k] == m[h];
        assert all'[k] == m[h];
      }
    }
  }

  lemma SeesRemoved(b: Bar, m: map<Handle, Tile>, h: Handle)
    requires Sees(b, m) && h in m
    ensures Sees(Dispatch(b, Removed(h)), m - {h})
  {
    RetainAppend(b.tiles, b.pending, h);
    TableRetain(b.tiles + b.pending, m, h);
    SameTable(Retain(b.tiles + b.pending, h), Dispatch(b, Removed(h)), m - {h});
  }

  lemma SameTable(all: seq<Tile>, b: Bar, m: map<Handle, Tile>)
    requires Table(all, m) && b.tiles + b.pending == all
    ensures Sees(b, m)
  {}

  lemma TableRetain(all: seq<Tile>, m: map<Handle, Tile>, h: Handle)
    requires Table(all, m) && h in m
    ensures Table(Retain(all, h), m - {h})
  {
    var i := Position(all, h);
    RetainIs(all, h);
    TableAt(all, m, h, i);
    TableDrop(all, m, i);
  }

  lemma TableDrop(all: seq<Tile>, m: map<Handle, Tile>, i: nat)
    requires Table(all, m) && i < |all|
    ensures Table(all[..i] + all[i + 1..], m - {all[i].handle})
  {
    DropDistinct(all, i);
    DropMembers(all, i);
  }

  lemma DropMembers(all: seq<Tile>, i: nat)
    requires DistinctHandles(all) && i < |all|
    ensures forall t :: t in all[..i] + all[i + 1..] <==> t in all && t.handle != all[i].handle
  {
    var left := all[..i] + all[i + 1..];
    forall t | t in left ensures t in all && t.handle != all[i].handle {
      var j :| 0 <= j < |left| && left[j] == t;
      assert t == all[if j < i then j else j + 1];
    }
    forall t | t in all && t.handle != all[i].handle ensures t in left {
      OthersStay(all, i, t);
    }
  }

  lemma OthersStay(all: seq<Tile>, i: nat, t: Tile)
    requires i < |all| && t in all && t.handle != all[i].handle
    ensures t in all[..i] + all[i + 1..]
  {
    var j :| 0 <= j < |all| && all[j] == t;
    assert (all[..i] + all[i + 1..])[if j < i then j else j - 1] == t;
  }

  lemma DropDistinct(all: seq<Tile>, i: nat)
    requires DistinctHandles(all) && i < |all|
    ensures DistinctHandles(all[..i] + all[i + 1..])
  {
    var left := all[..i] + all[i + 1..];
    forall j, k | 0 <= j < k < |left| ensures left[j].handle != left[k].handle {
      var j', k' := if j < i then j else j + 1, if k < i then k else k + 1;
      assert left[j] == all[j'] && left[k] == all[k'];
    }
  }

  lemma SeesDone(b: Bar, m: map<Handle, Tile>)
    requires Sees(b, m)
    ensures var b' := Dispatch(b, Done); Sees(b', m) && b'.pending == [] && Sorted(b'.tiles)
  {
    var all := b.tiles + b.pending;
    DoneIs(b);
    SortedTable(all, m);
    NothingPending(SortById(all), m);
  }

  lemma DoneIs(b: Bar)
    ensures Dispatch(b, Done) == Bar([], SortById(b.tiles + b.pending))
  {}

  lemma SortedTable(all: seq<Tile>, m: map<Handle, Tile>)
    requires Table(all, m)
    ensures Table(SortById(all), m) && Sorted(SortById(all))
  {
    SortIsSorted(all);
    SortKeepsDistinct(all);
    TablePermuted(all, SortById(all), m);
  }

  lemma NothingPending(ts: seq<Tile>, m: map<Handle, Tile>)
    requires Table(ts, m)
    ensures Sees(Bar([], ts), m)
  {
    assert ts + [] == ts;
  }

  lemma TablePermuted(all: seq<Tile>, sorted: seq<Tile>, m: map<Handle, Tile>)
    requires Table(all, m) && DistinctHandles(sorted) && SameTiles(sorted, all)
    ensures Table(sorted, m)
  {}

  // ---------------------------------------------------------------------
  // The dispatch of the code
  // ---------------------------------------------------------------------

  class BarState {
    var pending: seq<Tile>
    var workspaces: seq<Tile>
    var shown: bool
    var exit: bool

    function Abstract(): Bar
      reads this
    {
      Bar(pending, workspaces)
    }

    constructor ()
      ensures Abstract() == EMPTY && !shown && !exit
    {
      pending, workspaces, shown, exit := [], [], false, false;
    }

    // The bar is on screen while there are at least two workspaces; that is looked at only when a
    // batch is done or the server is finished.
    method HandleEvent(ev: Event)
      modifies this
      ensures Abstract() == Dispatch(old(Abstract()), ev)
      ensures shown == if ev.Done? || ev.Finished? then |workspaces| >= 2 else old(shown)
      ensures exit == (old(exit) || ev.Finished?)
    {
      match ev {
        case Created(h) => pending := pending + [Tile(h, 0, [], false)];
        case IdIs(h, wire) => EditEntry(h, SetId(wire));
        case NameIs(h, name) => EditEntry(h, SetName(name));
        case StateIs(h, active) => EditEntry(h, SetActive(active));
        case Removed(h) => Forget(h);
        case Done =>
          workspaces := SortById(workspaces + pending);
          pending := [];
          UpdateVisibility();
        case Finished =>
          workspaces := [];
          UpdateVisibility();
          exit := true;
        case _ =>
      }
    }

    method UpdateVisibility()
      modifies this`shown
      ensures shown == (|workspaces| >= 2)
    {
      if !shown && |workspaces| >= 2 {
        shown := true;
      } else if shown && |workspaces| < 2 {
        shown := false;
      }
    }

    method EditEntry(h: Handle, edit: Tile -> Tile)
      modifies this`pending, this`workspaces
      ensures Abstract() == Edit(old(Abstract()), h, edit)
    {
      var i := PositionOf(pending, h);
      if i < |pending| {
        pending := pending[i := edit(pending[i])];
        return;
      }
      i := PositionOf(workspaces, h);
      if i < |workspaces| {
        workspaces := workspaces[i := edit(workspaces[i])];
      }
    }

    // A handle with no entry is left alone before anything is removed.
    method Forget(h: Handle)
      modifies this`pending, this`workspaces
      ensures Abstract() == Dispatch(old(Abstract()), Removed(h))
    {
      var i := PositionOf(pending, h);
      var j := PositionOf(workspaces, h);
      if i == |pending| && j == |workspaces| {
        RetainAll(pending, h);
        RetainAll(workspaces, h);
        return;
      }
      pending := RetainOthers(pending, h);
      workspaces := RetainOthers(workspaces, h);
    }
  }

  method PositionOf(ts: seq<Tile>, h: Handle) returns (i: nat)
    ensures i == Position(ts, h)
  {
    i := 0;
    while i < |ts| && ts[i].handle != h
      invariant i <= |ts|
      invariant forall j :: 0 <= j < i ==> ts[j].handle != h
    {
      i := i + 1;
    }
  }

  method RetainOthers(ts: seq<Tile>, h: Handle) returns (kept: seq<Tile>)
    ensures kept == Retain(ts, h)
  {
    kept := [];
    var i := 0;
    while i < |ts|
      invariant i <= |ts| && kept + Retain(ts[i..], h) == Retain(ts, h)
    {
      assert ts[i..][0] == ts[i] && ts[i..][1..] == ts[i + 1..];
      if ts[i].handle != h {
        kept := kept + [ts[i]];
      }
      i := i + 1;
    }
  }
}
