// Both ends of ext-workspace-v1 together: replaying what the server sent reproduces the server's
// last snapshot on the bar, whatever the sequence of snapshots.

module Workspaces {
  import opened Prelude
  import opened WorkspaceServer
  import opened WorkspaceBar

  ghost predicate DistinctIds(ws: seq<Info>) {
    forall i, j :: 0 <= i < j < |ws| ==> ws[i].id != ws[j].id
  }

  function TileOf(h: Handle, w: Info): Tile {
    Tile(h, w.id, w.name, w.active)
  }

  // The bar's table holds one entry for each handle, showing what `infos` says of its workspace.
  ghost predicate Mirrors(handles: map<u64, Handle>, next: Handle, m: map<Handle, Tile>, infos: map<u64, Info>) {
    && handles.Keys == infos.Keys
    && (forall id :: id in handles ==> Shown(handles[id], m, id, infos[id]))
    && (forall h :: h in m ==> h < next && m[h].id in handles && handles[m[h].id] == h)
  }

  ghost predicate Shown(h: Handle, m: map<Handle, Tile>, id: u64, w: Info) {
    w.id == id && h in m && m[h] == TileOf(h, w)
  }

  ghost predicate AllGranted(grants: Grants) {
    forall h: Handle :: grants(h)
  }

  // The bar has replayed a walk's events.
  ghost predicate Synced(b0: Bar, k: Walk, m: map<Handle, Tile>, infos: map<u64, Info>) {
    && Sees(Replay(b0, k.events), m)
    && Mirrors(k.handles, k.next, m, infos)
  }

  // ---------------------------------------------------------------------
  // What each group of events does to the bar
  // ---------------------------------------------------------------------

  lemma SeesChange(b: Bar, m: map<Handle, Tile>, h: Handle, t: Tile, edit: Tile -> Tile)
    requires Sees(b, m[h := t]) && t.handle == h && edit(t).handle == h
    ensures Sees(Edit(b, h, edit), m[h := edit(t)])
  {
    SeesEdit(b, m[h := t], h, edit);
    assert m[h := t][h := edit(t)] == m[h := edit(t)];
  }

  lemma ReplayNew(b: Bar, m: map<Handle, Tile>, h: Handle, w: Info)
    requires Sees(b, m) && h !in m
    ensures Sees(Replay(b, NewEvents(h, w)), m[h := TileOf(h, w)])
  {
    var b1 := Dispatch(b, Created(h));
    var b2 := Edit(b1, h, SetId(WireId(w.id)));
    var b3 := Edit(b2, h, SetName(w.name));
    SeesCreated(b, m, h);
    ParseIdOfWire(w.id);
    SeesChange(b1, m, h, Tile(h, 0, [], false), SetId(WireId(w.id)));
    SeesChange(b2, m, h, Tile(h, w.id, [], false), SetName(w.name));
    SeesChange(b3, m, h, Tile(h, w.id, w.name, false), SetActive(w.active));
    NewIsEdits(b, h, w);
  }

  lemma NewIsEdits(b: Bar, h: Handle, w: Info)
    ensures Replay(b, NewEvents(h, w)) ==
            Edit(Edit(Edit(Dispatch(b, Created(h)), h, SetId(WireId(w.id))), h, SetName(w.name)), h,
                SetActive(w.active))
  {
    var evs := NewEvents(h, w);
    var b3 := Edit(Edit(Dispatch(b, Created(h)), h, SetId(WireId(w.id))), h, SetName(w.name));
    ReplayNewHead(b, h, w);
    ReplayNewTail(b3, h, w);
    ReplayAppend(b, NewHead(h, w), NewTail(h, w));
    assert evs == NewHead(h, w) + NewTail(h, w);
  }

  function NewHead(h: Handle, w: Info): seq<Event> {
    [Created(h), IdIs(h, WireId(w.id)), NameIs(h, w.name)]
  }

  function NewTail(h: Handle, w: Info): seq<Event> {
    [CoordinatesAre(h, EncodeUInt(Little, w.id % 0x1_0000_0000, 4)), CapabilitiesAre(h), StateIs(h, w.active),
     Entered(h)]
  }

  lemma ReplayNewHead(b: Bar, h: Handle, w: Info)
    ensures Replay(b, NewHead(h, w)) ==
            Edit(Edit(Dispatch(b, Created(h)), h, SetId(WireId(w.id))), h, SetName(w.name))
  {
    var evs := NewHead(h, w);
    ReplayFrom(b, evs, 0);
    ReplayFrom(Dispatch(b, evs[0]), evs, 1);
    ReplayFrom(Dispatch(Dispatch(b, evs[0]), evs[1]), evs, 2);
    assert evs[0..] == evs;
  }

  // Coordinates, capabilities and group membership leave the bar as it was.
  lemma ReplayNewTail(b: Bar, h: Handle, w: Info)
    ensures Replay(b, NewTail(h, w)) == Edit(b, h, SetActive(w.active))
  {
    var evs := NewTail(h, w);
    ReplayFrom(b, evs, 0);
    ReplayFrom(b, evs, 1);
    ReplayFrom(b, evs, 2);
    ReplayFrom(Edit(b, h, SetActive(w.active)), evs, 3);
    assert evs[0..] == evs;
  }

  lemma ReplayFrom(b: Bar, evs: seq<Event>, i: nat)
    requires i < |evs|
    ensures Replay(b, evs[i..]) == Replay(Dispatch(b, evs[i]), evs[i + 1..])
  {
    assert evs[i..][0] == evs[i] && evs[i..][1..] == evs[i + 1..];
  }

  lemma ReplayName(b: Bar, m: map<Handle, Tile>, h: Handle, t: Tile, name: bytes)
    requires Sees(b, m[h := t]) && t.handle == h
    ensures Sees(Replay(b, if t.name == name then [] else [NameIs(h, name)]), m[h := t.(name := name)])
  {
    if t.name != name {
      ReplayOne(b, NameIs(h, name));
      SeesChange(b, m, h, t, SetName(name));
    }
  }

  lemma ReplayState(b: Bar, m: map<Handle, Tile>, h: Handle, t: Tile, active: bool)
    requires Sees(b, m[h := t]) && t.handle == h
    ensures Sees(Replay(b, if t.active == active then [] else [StateIs(h, active)]), m[h := t.(active := active)])
  {
    if t.active != active {
      ReplayOne(b, StateIs(h, active));
      SeesChange(b, m, h, t, SetActive(active));
    }
  }

  lemma ReplayDiff(b: Bar, m: map<Handle, Tile>, h: Handle, was: Info, w: Info)
    requires Sees(b, m) && h in m && m[h] == TileOf(h, was) && was.id == w.id
    ensures Sees(Replay(b, DiffEvents(h, Some(was), w)), m[h := TileOf(h, w)])
    ensures DiffEvents(h, Some(was), w) == [] ==> was == w
  {
    var name: seq<Event> := if was.name == w.name then [] else [NameIs(h, w.name)];
    var state: seq<Event> := if was.active == w.active then [] else [StateIs(h, w.active)];
    var t := TileOf(h, was).(name := w.name);
    assert m[h := TileOf(h, was)] == m;
    ReplayName(b, m, h, TileOf(h, was), w.name);
    ReplayState(Replay(b, name), m, h, t, w.active);
    ReplayAppend(b, name, state);
    assert t.(active := w.active) == TileOf(h, w);
  }

  lemma ReplayDrop(b: Bar, m: map<Handle, Tile>, h: Handle)
    requires Sees(b, m) && h in m
    ensures Sees(Replay(b, [Left(h), Removed(h)]), m - {h})
  {
    ReplayCons(b, Left(h), [Removed(h)]);
    ReplayOne(b, Removed(h));
    SeesRemoved(b, m, h);
  }

  // ---------------------------------------------------------------------
  // One workspace of a refresh
  // ---------------------------------------------------------------------

  lemma DropOneSynced(b0: Bar, k: Walk, m: map<Handle, Tile>, infos: map<u64, Info>, id: u64)
    returns (m': map<Handle, Tile>, infos': map<u64, Info>)
    requires Synced(b0, k, m, infos)
    ensures Synced(b0, DropOne(k, id), m', infos') && infos' == infos - {id}
    ensures DropOne(k, id).handles == k.handles - {id}
  {
    infos' := infos - {id};
    if id in k.handles {
      var h := k.handles[id];
      m' := m - {h};
      assert Shown(h, m, id, infos[id]);
      ReplayAppend(b0, k.events, [Left(h), Removed(h)]);
      ReplayDrop(Replay(b0, k.events), m, h);
      MirrorsDrop(k.handles, k.next, m, infos, id);
    } else {
      m' := m;
      assert infos' == infos && k.handles - {id} == k.handles;
    }
  }

  lemma MirrorsDrop(handles: map<u64, Handle>, next: Handle, m: map<Handle, Tile>, infos: map<u64, Info>, id: u64)
    requires Mirrors(handles, next, m, infos) && id in handles
    ensures Mirrors(handles - {id}, next, m - {handles[id]}, infos - {id})
  {
    assert Shown(handles[id], m, id, infos[id]);
    forall x | x in handles && x != id ensures Shown(handles[x], m - {handles[id]}, x, infos[x]) {
      assert Shown(handles[x], m, x, infos[x]);
    }
  }

  lemma MirrorsPut(handles: map<u64, Handle>, next: Handle, m: map<Handle, Tile>, infos: map<u64, Info>, h: Handle,
          w: Info, next': Handle)
    requires Mirrors(handles, next, m, infos) && next <= next' && h < next'
    requires if w.id in handles then handles[w.id] == h else h !in m
    ensures Mirrors(handles[w.id := h], next', m[h := TileOf(h, w)], infos[w.id := w])
  {
    forall x | x in handles && x != w.id ensures Shown(handles[x], m[h := TileOf(h, w)], x, infos[x]) {
      assert Shown(handles[x], m, x, infos[x]);
    }
  }

  lemma SyncOneSynced(b0: Bar, k: Walk, m: map<Handle, Tile>, infos: map<u64, Info>, last: seq<Info>, w: Info,
          grants: Grants)
    returns (m': map<Handle, Tile>, infos': map<u64, Info>)
    requires Synced(b0, k, m, infos)
    requires w.id in infos ==> Lookup(last, w.id) == Some(infos[w.id])
    ensures var k' := SyncOne(k, last, w, grants);
            && Synced(b0, k', m', infos')
            && infos' == (if w.id in infos || grants(k.next) then infos[w.id := w] else infos)
            && Quiet(k, infos, k', infos')
  {
    var b := Replay(b0, k.events);
    if w.id in k.handles {
      var h := k.handles[w.id];
      assert Shown(h, m, w.id, infos[w.id]);
      var evs := DiffEvents(h, Some(infos[w.id]), w);
      m', infos' := m[h := TileOf(h, w)], infos[w.id := w];
      ReplayAppend(b0, k.events, evs);
      ReplayDiff(b, m, h, infos[w.id], w);
      MirrorsPut(k.handles, k.next, m, infos, h, w, k.next);
      assert k.handles[w.id := h] == k.handles;
    } else if grants(k.next) {
      var evs := NewEvents(k.next, w);
      m', infos' := m[k.next := TileOf(k.next, w)], infos[w.id := w];
      ReplayAppend(b0, k.events, evs);
      ReplayNew(b, m, k.next, w);
      MirrorsPut(k.handles, k.next, m, infos, k.next, w, k.next + 1);
    } else {
      m', infos' := m, infos;
    }
  }

  // ---------------------------------------------------------------------
  // A whole refresh
  // ---------------------------------------------------------------------

  // A stretch of a refresh that sent nothing changed nothing.
  ghost predicate Quiet(k: Walk, infos: map<u64, Info>, k': Walk, infos': map<u64, Info>) {
    && k.events <= k'.events
    && (k'.events == k.events ==> infos' == infos && k'.handles == k.handles)
  }

  ghost predicate Without(before: map<u64, Info>, dead: seq<u64>, after: map<u64, Info>) {
    && (forall id :: id in after <==> id in before && id !in dead)
    && (forall id :: id in after ==> after[id] == before[id])
  }

  lemma {:induction false} DropAllSynced(b0: Bar, k: Walk, m: map<Handle, Tile>, infos: map<u64, Info>, dead: seq<u64>)
    returns (m': map<Handle, Tile>, infos': map<u64, Info>)
    requires Synced(b0, k, m, infos)
    ensures var k' := DropAll(k, dead);
            Synced(b0, k', m', infos') && Without(infos, dead, infos') && Quiet(k, infos, k', infos')
    decreases |dead|
  {
    if dead == [] {
      m', infos' := m, infos;
    } else {
      var m1, infos1 := DropOneSynced(b0, k, m, infos, dead[0]);
      m', infos' := DropAllSynced(b0, DropOne(k, dead[0]), m1, infos1, dead[1..]);
      DropOneQuiet(k, infos, dead[0]);
      WithoutCons(infos, dead, infos');
    }
  }

  lemma DropOneQuiet(k: Walk, infos: map<u64, Info>, id: u64)
    requires k.handles.Keys == infos.Keys
    ensures Quiet(k, infos, DropOne(k, id), infos - {id})
  {
    if id !in k.handles {
      assert infos - {id} == infos;
    }
  }

  lemma WithoutCons(infos: map<u64, Info>, dead: seq<u64>, after: map<u64, Info>)
    requires dead != [] && Without(infos - {dead[0]}, dead[1..], after)
    ensures Without(infos, dead, after)
  {}

  // Every workspace of `ws` that has a handle shows what `ws` says; the others are as before.
  ghost predicate Updated(before: map<u64, Info>, ws: seq<Info>, after: map<u64, Info>) {
    && (forall id :: id in before ==> id in after)
    && (forall id :: id in after ==> UpdatedAt(before, ws, after, id))
  }

  ghost predicate UpdatedAt(before: map<u64, Info>, ws: seq<Info>, after: map<u64, Info>, id: u64)
    requires id in after
  {
    match Lookup(ws, id)
    case Some(w) => after[id] == w
    case None => id in before && after[id] == before[id]
  }

  // The table so far agrees with the last snapshot on everything still to be visited.
  ghost predicate Pending(infos: map<u64, Info>, last: seq<Info>, ws: seq<Info>) {
    forall id :: id in infos && Lookup(ws, id).Some? ==> Lookup(last, id) == Some(infos[id])
  }

  lemma {:induction false} SyncAllSynced(b0: Bar, k: Walk, m: map<Handle, Tile>, infos: map<u64, Info>,
                                         last: seq<Info>, ws: seq<Info>, grants: Grants)
    returns (m': map<Handle, Tile>, infos': map<u64, Info>)
    requires Synced(b0, k, m, infos) && DistinctIds(ws) && Pending(infos, last, ws)
    ensures var k' := SyncAll(k, last, ws, grants);
            && Synced(b0, k', m', infos')
            && Updated(infos, ws, infos')
            && (AllGranted(grants) ==> Complete(ws, infos'))
            && Quiet(k, infos, k', infos')
    decreases |ws|
  {
    if ws == [] {
      m', infos' := m, infos;
    } else {
      var w, rest := ws[0], ws[1..];
      HeadIsAlone(ws);
      var m1, infos1 := SyncOneSynced(b0, k, m, infos, last, w, grants);
      PendingRest(infos, last, ws, infos1);
      m', infos' := SyncAllSynced(b0, SyncOne(k, last, w, grants), m1, infos1, last, rest, grants);
      UpdatedCons(infos, ws, infos1, infos');
      QuietThrough(k, infos, SyncOne(k, last, w, grants), infos1, SyncAll(k, last, ws, grants), infos');
    }
  }

  lemma QuietThrough(k: Walk, infos: map<u64, Info>, k1: Walk, infos1: map<u64, Info>, k2: Walk, infos2: map<u64, Info>)
    requires Quiet(k, infos, k1, infos1) && Quiet(k1, infos1, k2, infos2)
    ensures Quiet(k, infos, k2, infos2)
  {
    if k2.events == k.events {
      assert k1.events == k.events;
    }
  }

  ghost predicate Complete(ws: seq<Info>, infos: map<u64, Info>) {
    forall id :: Lookup(ws, id).Some? ==> id in infos
  }

  lemma PendingRest(infos: map<u64, Info>, last: seq<Info>, ws: seq<Info>, infos1: map<u64, Info>)
    requires ws != [] && Lookup(ws[1..], ws[0].id) == None && Pending(infos, last, ws)
    requires infos1 == infos || infos1 == infos[ws[0].id := ws[0]]
    ensures Pending(infos1, last, ws[1..])
  {
    forall id | id in infos1 && Lookup(ws[1..], id).Some? ensures Lookup(last, id) == Some(infos1[id]) {
      assert id != ws[0].id && Lookup(ws, id) == Lookup(ws[1..], id);
    }
  }

  lemma UpdatedCons(infos: map<u64, Info>, ws: seq<Info>, infos1: map<u64, Info>, after: map<u64, Info>)
    requires ws != [] && Lookup(ws[1..], ws[0].id) == None
    requires infos1 == infos[ws[0].id := ws[0]] || (infos1 == infos && ws[0].id !in infos)
    requires Updated(infos1, ws[1..], after)
    ensures Updated(infos, ws, after)
    ensures ws[0].id in infos1 && Complete(ws[1..], after) ==> Complete(ws, after)
  {
    forall id | id in after ensures UpdatedAt(infos, ws, after, id) {
      assert UpdatedAt(infos1, ws[1..], after, id);
    }
  }

  lemma HeadIsAlone(ws: seq<Info>)
    requires ws != [] && DistinctIds(ws)
    ensures Lookup(ws[1..], ws[0].id) == None && DistinctIds(ws[1..])
  {
    LookupNone(ws[1..], ws[0].id);
  }

  lemma {:induction false} LookupNone(ws: seq<Info>, id: u64)
    requires forall i :: 0 <= i < |ws| ==> ws[i].id != id
    ensures Lookup(ws, id) == None
  {
    if ws != [] {
      LookupNone(ws[1..], id);
    }
  }

  // ---------------------------------------------------------------------
  // Runs
  // ---------------------------------------------------------------------

  // What holds between ticks, `ws` being the snapshot of the latest one: the bar has nothing
  // pending, is sorted, and shows each workspace that has a handle as `ws` describes it.
  ghost predicate Converged(s: Server, b: Bar, ws: seq<Info>, m: map<Handle, Tile>, infos: map<u64, Info>) {
    && b.pending == [] && Sorted(b.tiles)
    && Sees(b, m)
    && Mirrors(s.handles, s.next, m, infos)
    && (s.group.None? ==> infos == map[])
    && (forall id :: id in infos ==> Lookup(ws, id) == Some(infos[id]))
    && (forall id :: id in infos ==> Lookup(s.last, id) == Some(infos[id]))
  }

  lemma StartSynced(s: Server, b: Bar, ws: seq<Info>, m: map<Handle, Tile>, infos: map<u64, Info>)
    requires Converged(s, b, ws, m, infos)
    ensures Synced(b, StartWalk(s), m, infos)
  {
    if s.group.None? {
      var g, c := GroupCreated(s.next), GroupCapabilities(s.next);
      assert [g] + [c] == [g, c];
      ReplayCons(b, g, [c]);
      ReplayOne(b, c);
    }
    forall id | id in s.handles ensures Shown(s.handles[id], m, id, infos[id]) {}
  }

  lemma RefreshSynced(s: Server, b: Bar, before: seq<Info>, m: map<Handle, Tile>, infos: map<u64, Info>,
                      ws: seq<Info>, dead: seq<u64>, grants: Grants)
    returns (m': map<Handle, Tile>, infos': map<u64, Info>)
    requires Converged(s, b, before, m, infos) && DistinctIds(ws) && DeadOrder(s.handles, ws, dead)
    ensures var k := Body(s, ws, dead, grants);
            && Synced(b, k, m', infos')
            && (forall id :: id in infos' ==> Lookup(ws, id) == Some(infos'[id]))
            && (AllGranted(grants) ==> Complete(ws, infos'))
            && (k.events == [] ==> infos' == infos && k.handles == s.handles)
  {
    var k0 := StartWalk(s);
    StartSynced(s, b, before, m, infos);
    var m1, infos1 := DropAllSynced(b, k0, m, infos, dead);
    assert Pending(infos1, s.last, ws);
    m', infos' := SyncAllSynced(b, DropAll(k0, dead), m1, infos1, s.last, ws, grants);
    forall id | id in infos' ensures Lookup(ws, id) == Some(infos'[id]) {
      assert UpdatedAt(infos1, ws, infos', id);
    }
  }

  lemma RefreshConverges(s: Server, b: Bar, before: seq<Info>, m: map<Handle, Tile>, infos: map<u64, Info>,
                         ws: seq<Info>, dead: seq<u64>, grants: Grants)
    returns (m': map<Handle, Tile>, infos': map<u64, Info>)
    requires Converged(s, b, before, m, infos) && DistinctIds(ws) && DeadOrder(s.handles, ws, dead)
    ensures var (s', evs) := Refresh(s, ws, dead, grants);
            && Converged(s', Replay(b, evs), ws, m', infos')
            && (AllGranted(grants) ==> Complete(ws, infos'))
  {
    if s.group.None? && !grants(s.next) {
      m', infos' := m, infos;
    } else {
      var k := Body(s, ws, dead, grants);
      m', infos' := RefreshSynced(s, b, before, m, infos, ws, dead, grants);
      if k.events == [] {
        SeesSame(b, m, infos, m', infos');
      } else {
        ReplayAppend(b, k.events, [Done]);
        ReplayOne(Replay(b, k.events), Done);
        SeesDone(Replay(b, k.events), m');
      }
    }
  }

  lemma SeesSame(b: Bar, m: map<Handle, Tile>, infos: map<u64, Info>, m': map<Handle, Tile>, infos': map<u64, Info>)
    requires Sees(b, m) && Sees(b, m')
    ensures Replay(b, []) == b
  {}

  // One tick of the server: a snapshot, the order in which dead ids are found, and which protocol
  // objects can be created.
  datatype Tick = Tick(ws: seq<Info>, dead: seq<u64>, grants: Grants)

  datatype World = World(server: Server, sent: seq<Event>, latest: seq<Info>)

  function Step(w: World, t: Tick): World {
    var (s, evs) := Refresh(w.server, t.ws, t.dead, t.grants);
    World(s, w.sent + evs, t.ws)
  }

  function Run(ticks: seq<Tick>): World
    decreases |ticks|
  {
    if ticks == [] then World(UNBOUND, [], []) else Step(Run(ticks[..|ticks| - 1]), ticks[|ticks| - 1])
  }

  ghost predicate Fair(ticks: seq<Tick>) {
    forall i :: 0 <= i < |ticks| ==> FairAt(ticks, i)
  }

  ghost predicate FairAt(ticks: seq<Tick>, i: nat)
    requires i < |ticks|
  {
    DistinctIds(ticks[i].ws) && DeadOrder(Run(ticks[..i]).server.handles, ticks[i].ws, ticks[i].dead)
  }

  lemma {:induction false} RunConverges(ticks: seq<Tick>)
    returns (m: map<Handle, Tile>, infos: map<u64, Info>)
    requires Fair(ticks)
    ensures var w := Run(ticks);
            && Converged(w.server, Replay(EMPTY, w.sent), w.latest, m, infos)
            && (ticks != [] && AllGranted(ticks[|ticks| - 1].grants) ==> Complete(w.latest, infos))
    decreases |ticks|
  {
    if ticks == [] {
      m, infos := map[], map[];
    } else {
      var n := |ticks| - 1;
      FairPrefix(ticks);
      var m0, infos0 := RunConverges(ticks[..n]);
      var w, t := Run(ticks[..n]), ticks[n];
      assert FairAt(ticks, n);
      m, infos := RefreshConverges(w.server, Replay(EMPTY, w.sent), w.latest, m0, infos0, t.ws, t.dead, t.grants);
      ReplayAppend(EMPTY, w.sent, Refresh(w.server, t.ws, t.dead, t.grants).1);
    }
  }

  lemma FairPrefix(ticks: seq<Tick>)
    requires ticks != [] && Fair(ticks)
    ensures Fair(ticks[..|ticks| - 1])
  {
    var most := ticks[..|ticks| - 1];
    forall i | 0 <= i < |most| ensures FairAt(most, i) {
      assert FairAt(ticks, i) && most[..i] == ticks[..i];
    }
  }

  // ---------------------------------------------------------------------
  // What the user sees
  // ---------------------------------------------------------------------

  function InfoOf(t: Tile): Info {
    Info(t.id, t.name, t.active)
  }

  // `ts` lists exactly the workspaces of `ws` that satisfy `has`, by increasing id.
  ghost predicate ShowsSorted(ts: seq<Tile>, ws: seq<Info>, has: set<u64>) {
    && (forall i, j :: 0 <= i < j < |ts| ==> ts[i].id < ts[j].id)
    && (forall t :: t in ts ==> InfoOf(t) in ws && t.id in has)
    && (forall w :: w in ws && w.id in has ==> exists t :: t in ts && InfoOf(t) == w)
  }

  lemma {:induction false} LookupMember(ws: seq<Info>, id: u64)
    ensures Lookup(ws, id).Some? ==> Lookup(ws, id).value in ws && Lookup(ws, id).value.id == id
    ensures Lookup(ws, id).None? ==> forall w :: w in ws ==> w.id != id
  {
    if ws != [] {
      LookupMember(ws[1..], id);
    }
  }

  lemma LookupIs(ws: seq<Info>, w: Info)
    requires DistinctIds(ws) && w in ws
    ensures Lookup(ws, w.id) == Some(w)
  {
    LookupMember(ws, w.id);
  }

  lemma ConvergedShows(s: Server, b: Bar, ws: seq<Info>, m: map<Handle, Tile>, infos: map<u64, Info>)
    requires Converged(s, b, ws, m, infos) && DistinctIds(ws)
    ensures ShowsSorted(b.tiles, ws, s.handles.Keys)
  {
    var ts := b.tiles;
    assert ts + [] == ts;
    forall t | t in ts ensures InfoOf(t) in ws && t.id in s.handles && s.handles[t.id] == t.handle {
      assert t.handle in m && m[t.handle] == t;
      assert Shown(s.handles[t.id], m, t.id, infos[t.id]);
      LookupMember(ws, t.id);
    }
    forall i, j | 0 <= i < j < |ts| ensures ts[i].id < ts[j].id {
      assert ts[i] in ts && ts[j] in ts && ts[i].handle != ts[j].handle;
    }
    forall w | w in ws && w.id in s.handles ensures exists t :: t in ts && InfoOf(t) == w {
      LookupIs(ws, w);
      assert Shown(s.handles[w.id], m, w.id, infos[w.id]);
      assert m[s.handles[w.id]] in ts && InfoOf(m[s.handles[w.id]]) == w;
    }
  }

  // Over every run of snapshots, and however much of what was sent the bar has already replayed:
  // replaying the rest leaves nothing pending and shows, sorted by id, exactly the workspaces of
  // the latest snapshot that have a protocol object.
  lemma Convergence(ticks: seq<Tick>, seen: nat)
    requires ticks != [] && Fair(ticks) && seen <= |Run(ticks).sent|
    ensures var w := Run(ticks);
            var b := Replay(Replay(EMPTY, w.sent[..seen]), w.sent[seen..]);
            && b.pending == []
            && ShowsSorted(b.tiles, w.latest, w.server.handles.Keys)
  {
    var w := Run(ticks);
    var m, infos := RunConverges(ticks);
    assert FairAt(ticks, |ticks| - 1);
    assert w.sent == w.sent[..seen] + w.sent[seen..];
    ReplayAppend(EMPTY, w.sent[..seen], w.sent[seen..]);
    ConvergedShows(w.server, Replay(EMPTY, w.sent), w.latest, m, infos);
  }

  // When the latest tick could create every object it needed, that is the whole snapshot.
  lemma NothingMissing(ticks: seq<Tick>)
    requires ticks != [] && Fair(ticks) && AllGranted(ticks[|ticks| - 1].grants)
    ensures var w := Run(ticks); forall i :: 0 <= i < |w.latest| ==> w.latest[i].id in w.server.handles
  {
    var w := Run(ticks);
    var m, infos := RunConverges(ticks);
    forall i | 0 <= i < |w.latest| ensures w.latest[i].id in w.server.handles {
      LookupMember(w.latest, w.latest[i].id);
    }
  }

  // ---------------------------------------------------------------------
  // A repeated snapshot
  // ---------------------------------------------------------------------

  ghost predicate AllHaveHandles(handles: map<u64, Handle>, ws: seq<Info>) {
    forall i :: 0 <= i < |ws| ==> ws[i].id in handles
  }

  // What the last snapshot says about the id of every entry is that entry.
  ghost predicate Unchanged(last: seq<Info>, ws: seq<Info>) {
    forall i :: 0 <= i < |ws| ==> Lookup(last, ws[i].id) == Some(ws[i])
  }

  lemma LookupHasId(ws: seq<Info>, id: u64)
    ensures Lookup(ws, id).Some? ==> Lookup(ws, id).value.id == id
  {
    LookupMember(ws, id);
  }

  lemma DiffQuietIff(h: Handle, last: seq<Info>, w: Info)
    ensures DiffEvents(h, Lookup(last, w.id), w) == [] <==> Lookup(last, w.id) == Some(w)
  {
    LookupHasId(last, w.id);
  }

  lemma {:induction false} SyncQuietIff(k: Walk, last: seq<Info>, ws: seq<Info>, grants: Grants)
    requires AllHaveHandles(k.handles, ws)
    ensures |SyncAll(k, last, ws, grants).events| >= |k.events|
    ensures |SyncAll(k, last, ws, grants).events| == |k.events| <==> Unchanged(last, ws)
    ensures Unchanged(last, ws) ==> SyncAll(k, last, ws, grants) == k
    decreases |ws|
  {
    if ws != [] {
      var k1 := SyncOne(k, last, ws[0], grants);
      DiffQuietIff(k.handles[ws[0].id], last, ws[0]);
      assert AllHaveHandles(k1.handles, ws[1..]);
      SyncQuietIff(k1, last, ws[1..], grants);
      UnchangedCons(last, ws);
      assert k.events + [] == k.events;
    }
  }

  lemma UnchangedCons(last: seq<Info>, ws: seq<Info>)
    requires ws != []
    ensures Unchanged(last, ws) <==> Lookup(last, ws[0].id) == Some(ws[0]) && Unchanged(last, ws[1..])
  {
    assert forall i :: 0 < i < |ws| ==> ws[i] == ws[1..][i - 1];
  }

  lemma NoneDead(handles: map<u64, Handle>, ws: seq<Info>, dead: seq<u64>)
    requires DeadOrder(handles, ws, dead) && forall id :: id in handles ==> Lookup(ws, id).Some?
    ensures dead == []
  {
    HeadIn(dead);
  }

  lemma HeadIn<T>(s: seq<T>)
    ensures s == [] || s[0] in s
  {}

  // After any run in which every workspace of the latest snapshot got its object, the same
  // snapshot again sends nothing and changes nothing.
  lemma RepeatedTickIsSilent(ticks: seq<Tick>, dead: seq<u64>, grants: Grants)
    requires ticks != [] && Fair(ticks)
    requires var w := Run(ticks);
             w.server.group.Some? && AllHaveHandles(w.server.handles, w.latest)
                 && DeadOrder(w.server.handles, w.latest, dead)
    ensures var w := Run(ticks); Refresh(w.server, w.latest, dead, grants) == (w.server, [])
  {
    var w := Run(ticks);
    var m, infos := RunConverges(ticks);
    assert FairAt(ticks, |ticks| - 1);
    NoneDead(w.server.handles, w.latest, dead);
    forall i | 0 <= i < |w.latest| ensures Lookup(w.server.last, w.latest[i].id) == Some(w.latest[i]) {
      LookupIs(w.latest, w.latest[i]);
    }
    SyncQuietIff(StartWalk(w.server), w.server.last, w.latest, grants);
  }

  // ---------------------------------------------------------------------
  // Any snapshot, again and again
  // ---------------------------------------------------------------------

  // The server after `n` more ticks with the snapshot.
  function Later(s: Server, ws: seq<Info>, grants: Grants, n: nat): Server {
    if n == 0 then s else Refresh(Later(s, ws, grants, n - 1), ws, [], grants).0
  }

  // The state that a tick with `ws` leaves behind when every object could be created.
  ghost predicate Visited(s: Server, ws: seq<Info>) {
    && s.group.Some?
    && AllHaveHandles(s.handles, ws)
    && (forall id :: id in s.handles ==> Lookup(ws, id).Some?)
    && (s.last == ws || Unchanged(s.last, ws))
  }

  lemma UnchangedSelf(last: seq<Info>, ws: seq<Info>)
    requires Unchanged(last, ws)
    ensures Unchanged(ws, ws)
  {
    forall i | 0 <= i < |ws| ensures Lookup(ws, ws[i].id) == Some(ws[i]) {
      LookupMember(ws, ws[i].id);
      var first := Lookup(ws, ws[i].id).value;
      var j :| 0 <= j < |ws| && ws[j] == first;
      assert Lookup(last, ws[j].id) == Some(ws[j]) && Lookup(last, ws[i].id) == Some(ws[i]);
    }
  }

  lemma {:induction false} SyncKeepsHandles(k: Walk, last: seq<Info>, ws: seq<Info>, grants: Grants)
    requires AllHaveHandles(k.handles, ws)
    ensures SyncAll(k, last, ws, grants).handles == k.handles
    decreases |ws|
  {
    if ws != [] {
      var k1 := SyncOne(k, last, ws[0], grants);
      assert AllHaveHandles(k1.handles, ws[1..]);
      SyncKeepsHandles(k1, last, ws[1..], grants);
    }
  }

  lemma AgainIff(s: Server, ws: seq<Info>, grants: Grants)
    requires Visited(s, ws)
    ensures Visited(Refresh(s, ws, [], grants).0, ws)
    ensures Refresh(s, ws, [], grants).1 == [] <==> Unchanged(ws, ws)
  {
    SyncQuietIff(StartWalk(s), s.last, ws, grants);
    SyncKeepsHandles(StartWalk(s), s.last, ws, grants);
    if Unchanged(s.last, ws) {
      UnchangedSelf(s.last, ws);
    }
  }

  lemma {:induction false} LaterVisited(s: Server, ws: seq<Info>, grants: Grants, n: nat)
    requires Visited(s, ws)
    ensures Visited(Later(s, ws, grants, n), ws)
  {
    if n > 0 {
      LaterVisited(s, ws, grants, n - 1);
      AgainIff(Later(s, ws, grants, n - 1), ws, grants);
    }
  }

  lemma {:induction false} DropAllKeys(k: Walk, dead: seq<u64>)
    ensures forall id :: id in DropAll(k, dead).handles <==> id in k.handles && id !in dead
    decreases |dead|
  {
    if dead != [] {
      DropAllKeys(DropOne(k, dead[0]), dead[1..]);
    }
  }

  lemma {:induction false} SyncAllKeys(k: Walk, last: seq<Info>, ws: seq<Info>, grants: Grants)
    requires AllGranted(grants)
    ensures forall id :: id in SyncAll(k, last, ws, grants).handles <==> id in k.handles || Lookup(ws, id).Some?
    decreases |ws|
  {
    if ws != [] {
      SyncAllKeys(SyncOne(k, last, ws[0], grants), last, ws[1..], grants);
    }
  }

  lemma {:induction false} SyncGrows(k: Walk, last: seq<Info>, ws: seq<Info>, grants: Grants)
    ensures |SyncAll(k, last, ws, grants).events| >= |k.events|
    decreases |ws|
  {
    if ws != [] {
      SyncGrows(SyncOne(k, last, ws[0], grants), last, ws[1..], grants);
    }
  }

  // A walk that sends nothing creates nothing.
  lemma {:induction false} SilentCreatesNone(k: Walk, last: seq<Info>, ws: seq<Info>, grants: Grants)
    requires AllGranted(grants) && |SyncAll(k, last, ws, grants).events| == |k.events|
    ensures AllHaveHandles(k.handles, ws)
    decreases |ws|
  {
    if ws != [] {
      var k1 := SyncOne(k, last, ws[0], grants);
      SyncGrows(k1, last, ws[1..], grants);
      assert ws[0].id in k.handles;
      SilentCreatesNone(k1, last, ws[1..], grants);
      assert forall i :: 0 < i < |ws| ==> ws[i] == ws[1..][i - 1];
    }
  }

  lemma FirstVisits(s: Server, ws: seq<Info>, dead: seq<u64>, grants: Grants)
    requires DeadOrder(s.handles, ws, dead) && AllGranted(grants)
    ensures Visited(Refresh(s, ws, dead, grants).0, ws)
  {
    var k := DropAll(StartWalk(s), dead);
    DropAllKeys(StartWalk(s), dead);
    SyncAllKeys(k, s.last, ws, grants);
    forall i | 0 <= i < |ws| ensures Lookup(ws, ws[i].id).Some? {
      LookupMember(ws, ws[i].id);
    }
    SyncGrows(k, s.last, ws, grants);
    if Body(s, ws, dead, grants).events == [] {
      SilentCreatesNone(k, s.last, ws, grants);
      SyncQuietIff(k, s.last, ws, grants);
    }
  }

  // Whatever the state before, once a tick with `ws` could create every object: each later tick
  // with `ws`, however many there are, sends nothing if and only if every entry of `ws` is the
  // first one with its id; otherwise each of them sends changes again.
  lemma SettlesIff(s: Server, ws: seq<Info>, dead: seq<u64>, grants: Grants, n: nat)
    requires DeadOrder(s.handles, ws, dead) && AllGranted(grants)
    ensures var s' := Later(Refresh(s, ws, dead, grants).0, ws, grants, n);
            && DeadOrder(s'.handles, ws, [])
            && (Refresh(s', ws, [], grants).1 == [] <==> Unchanged(ws, ws))
  {
    var s1 := Refresh(s, ws, dead, grants).0;
    FirstVisits(s, ws, dead, grants);
    LaterVisited(s1, ws, grants, n);
    AgainIff(Later(s1, ws, grants, n), ws, grants);
  }

  // With distinct ids every snapshot settles.
  lemma DistinctSettles(ws: seq<Info>)
    requires DistinctIds(ws)
    ensures Unchanged(ws, ws)
  {
    forall i | 0 <= i < |ws| ensures Lookup(ws, ws[i].id) == Some(ws[i]) {
      LookupIs(ws, ws[i]);
    }
  }
}
