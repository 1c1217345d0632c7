// What the server's events say about the group and the objects themselves, which the bar ignores:
// membership, coordinates, and the life of each object, over every run.

module WorkspaceGroups {
  import opened Prelude
  import opened WorkspaceServer
  import Workspaces

  // A client that follows the group: its members and the coordinates of each workspace, and whether
  // every event so far was allowed: an object is created once and with a new number, spoken of only
  // while it lives, and leaves the group before it is removed.
  datatype Group = Group(members: set<Handle>, coords: map<Handle, bytes>, alive: set<Handle>, used: Handle, ok: bool)

  const NOTHING := Group({}, map[], {}, 0, true)

  function Hear(g: Group, ev: Event): Group {
    match ev
    case GroupCreated(h) => g.(used := h + 1, ok := g.ok && h >= g.used)
    case GroupCapabilities(h) => g
    case Created(h) => g.(alive := g.alive + {h}, used := h + 1, ok := g.ok && h >= g.used)
    case IdIs(h, _) => g.(ok := g.ok && h in g.alive)
    case NameIs(h, _) => g.(ok := g.ok && h in g.alive)
    case CoordinatesAre(h, c) => g.(coords := g.coords[h := c], ok := g.ok && h in g.alive)
    case CapabilitiesAre(h) => g.(ok := g.ok && h in g.alive)
    case StateIs(h, _) => g.(ok := g.ok && h in g.alive)
    case Entered(h) => g.(members := g.members + {h}, ok := g.ok && h in g.alive && h !in g.members)
    case Left(h) => g.(members := g.members - {h}, ok := g.ok && h in g.members)
    case Removed(h) =>
      g.(alive := g.alive - {h}, coords := g.coords - {h}, ok := g.ok && h in g.alive && h !in g.members)
    case Done => g
    case Finished => g
  }

  function HearAll(g: Group, evs: seq<Event>): Group
    decreases |evs|
  {
    if evs == [] then g else HearAll(Hear(g, evs[0]), evs[1..])
  }

  lemma {:induction false} HearAppend(g: Group, a: seq<Event>, b: seq<Event>)
    ensures HearAll(g, a + b) == HearAll(HearAll(g, a), b)
    decreases |a|
  {
    if a == [] {
      assert a + b == b;
    } else {
      HearAppend(Hear(g, a[0]), a[1..], b);
      assert (a + b)[0] == a[0] && (a + b)[1..] == a[1..] + b;
    }
  }

  lemma HearOne(g: Group, ev: Event)
    ensures HearAll(g, [ev]) == Hear(g, ev)
  {
    assert [ev][1..] == [];
  }

  lemma HearTwo(g: Group, a: Event, b: Event)
    ensures HearAll(g, [a, b]) == Hear(Hear(g, a), b)
  {
    HearAppend(g, [a], [b]);
    HearOne(g, a);
    HearOne(Hear(g, a), b);
    assert [a] + [b] == [a, b];
  }

  // The four bytes of the low half of an id, lowest first.
  function Coordinates(id: u64): bytes {
    EncodeUInt(Little, id % 0x1_0000_0000, 4)
  }

  // The client knows exactly the handles of the table: all members, each with its id's coordinates.
  ghost predicate Follows(g: Group, handles: map<u64, Handle>, next: Handle) {
    && g.ok && g.used <= next
    && (forall id :: id in handles ==> handles[id] < g.used)
    && (forall a, b :: a in handles && b in handles && handles[a] == handles[b] ==> a == b)
    && (forall id :: id in handles ==> Known(g, handles[id], id))
    && (forall h :: h in g.alive ==> OfTable(handles, h))
    && g.members == g.alive && g.coords.Keys == g.alive
  }

  predicate Known(g: Group, h: Handle, id: u64) {
    h in g.alive && h in g.coords && g.coords[h] == Coordinates(id)
  }

  ghost predicate OfTable(handles: map<u64, Handle>, h: Handle) {
    exists id :: id in handles && handles[id] == h
  }

  ghost predicate FollowsWalk(g: Group, k: Walk) {
    Follows(HearAll(g, k.events), k.handles, k.next)
  }

  lemma DropOneFollows(g: Group, k: Walk, id: u64)
    requires FollowsWalk(g, k)
    ensures FollowsWalk(g, DropOne(k, id))
  {
    if id in k.handles {
      var h := k.handles[id];
      var g1 := HearAll(g, k.events);
      HearAppend(g, k.events, [Left(h), Removed(h)]);
      HearTwo(g1, Left(h), Removed(h));
      DropFollows(g1, k.handles, k.next, id);
    }
  }

  lemma DropFollows(g: Group, handles: map<u64, Handle>, next: Handle, id: u64)
    requires Follows(g, handles, next) && id in handles
    ensures Follows(Hear(Hear(g, Left(handles[id])), Removed(handles[id])), handles - {id}, next)
  {
    var h := handles[id];
    var g', left := Hear(Hear(g, Left(h)), Removed(h)), handles - {id};
    assert Known(g, h, id);
    forall x | x in left ensures Known(g', left[x], x) {
      assert Known(g, handles[x], x) && handles[x] != h;
    }
    forall y | y in g'.alive ensures OfTable(left, y) {
      assert OfTable(handles, y);
      var x :| x in handles && handles[x] == y;
      assert x in left;
    }
  }

  lemma SyncOneFollows(g: Group, k: Walk, last: seq<Info>, w: Info, grants: Grants)
    requires FollowsWalk(g, k)
    ensures FollowsWalk(g, SyncOne(k, last, w, grants))
  {
    var g1 := HearAll(g, k.events);
    if w.id in k.handles {
      var h := k.handles[w.id];
      var evs := DiffEvents(h, Lookup(last, w.id), w);
      HearAppend(g, k.events, evs);
      assert Known(g1, h, w.id);
      HearDiff(g1, h, Lookup(last, w.id), w);
    } else if grants(k.next) {
      HearAppend(g, k.events, NewEvents(k.next, w));
      HearNew(g1, k.next, w);
      NewFollows(g1, k.handles, k.next, w.id);
    }
  }

  lemma HearDiff(g: Group, h: Handle, was: Option<Info>, w: Info)
    requires h in g.alive
    ensures HearAll(g, DiffEvents(h, was, w)) == g
  {
    var name: seq<Event> := if was.Some? && was.value.name == w.name then [] else [NameIs(h, w.name)];
    var state: seq<Event> := if (was.Some? && was.value.active) == w.active then [] else [StateIs(h, w.active)];
    HearAppend(g, name, state);
    HearOne(g, NameIs(h, w.name));
    HearOne(g, StateIs(h, w.active));
    assert HearAll(g, []) == g;
  }

  function Joined(g: Group, h: Handle, id: u64): Group {
    Group(g.members + {h}, g.coords[h := Coordinates(id)], g.alive + {h}, h + 1,
          g.ok && h >= g.used && h !in g.members)
  }

  // The seven events of a new workspace, whatever their names and states.
  lemma HearNew(g: Group, h: Handle, w: Info)
    ensures HearAll(g, NewEvents(h, w)) == Joined(g, h, w.id)
  {
    var evs := NewEvents(h, w);
    var g1 := Hear(g, Created(h));
    HearAppend(g, [evs[0], evs[1]], evs[2..]);
    assert [evs[0], evs[1]] + evs[2..] == evs;
    HearTwo(g, evs[0], evs[1]);
    HearAppend(g1, [evs[2], evs[3]], evs[4..]);
    assert [evs[2], evs[3]] + evs[4..] == evs[2..];
    HearTwo(g1, evs[2], evs[3]);
    var g2 := Hear(g1, evs[3]);
    HearAppend(g2, [evs[4], evs[5]], evs[6..]);
    assert [evs[4], evs[5]] + evs[6..] == evs[4..];
    HearTwo(g2, evs[4], evs[5]);
    assert evs[6..] == [evs[6]];
    HearOne(g2, evs[6]);
  }

  lemma NewFollows(g: Group, handles: map<u64, Handle>, next: Handle, id: u64)
    requires Follows(g, handles, next) && id !in handles
    ensures Follows(Joined(g, next, id), handles[id := next], next + 1)
  {
    var g', more := Joined(g, next, id), handles[id := next];
    forall h | h in g.alive ensures h < g.used && OfTable(more, h) {
      StillOfTable(g, handles, next, id, h);
    }
    forall x | x in more ensures Known(g', more[x], x) {
      if x != id {
        assert Known(g, handles[x], x);
      }
    }
    assert more[id] == next;
    assert OfTable(more, next);
  }

  lemma StillOfTable(g: Group, handles: map<u64, Handle>, next: Handle, id: u64, h: Handle)
    requires Follows(g, handles, next) && id !in handles && h in g.alive
    ensures h < g.used && OfTable(handles[id := next], h)
  {
    assert OfTable(handles, h);
    var x :| x in handles && handles[x] == h;
    assert handles[id := next][x] == h;
  }

  lemma {:induction false} DropAllFollows(g: Group, k: Walk, dead: seq<u64>)
    requires FollowsWalk(g, k)
    ensures FollowsWalk(g, DropAll(k, dead))
    decreases |dead|
  {
    if dead != [] {
      DropOneFollows(g, k, dead[0]);
      DropAllFollows(g, DropOne(k, dead[0]), dead[1..]);
    }
  }

  lemma {:induction false} SyncAllFollows(g: Group, k: Walk, last: seq<Info>, ws: seq<Info>, grants: Grants)
    requires FollowsWalk(g, k)
    ensures FollowsWalk(g, SyncAll(k, last, ws, grants))
    decreases |ws|
  {
    if ws != [] {
      SyncOneFollows(g, k, last, ws[0], grants);
      SyncAllFollows(g, SyncOne(k, last, ws[0], grants), last, ws[1..], grants);
    }
  }

  lemma StartFollows(g: Group, s: Server)
    requires Follows(g, s.handles, s.next)
    ensures FollowsWalk(g, StartWalk(s))
  {
    if s.group.None? {
      HearTwo(g, GroupCreated(s.next), GroupCapabilities(s.next));
      var g' := g.(used := s.next + 1);
      forall id | id in s.handles ensures Known(g', s.handles[id], id) {
        assert Known(g, s.handles[id], id);
      }
    }
  }

  lemma RefreshFollows(g: Group, s: Server, ws: seq<Info>, dead: seq<u64>, grants: Grants)
    requires Follows(g, s.handles, s.next)
    ensures var (s', evs) := Refresh(s, ws, dead, grants); Follows(HearAll(g, evs), s'.handles, s'.next)
  {
    if !(s.group.None? && !grants(s.next)) {
      var k := Body(s, ws, dead, grants);
      StartFollows(g, s);
      DropAllFollows(g, StartWalk(s), dead);
      SyncAllFollows(g, DropAll(StartWalk(s), dead), s.last, ws, grants);
      HearAppend(g, k.events, [Done]);
      HearOne(HearAll(g, k.events), Done);
    }
  }

  // Over every run, whatever the snapshots and whatever objects can be created: every event is
  // allowed, and a client that has heard them all knows as members of the group, with the low half
  // of their ids as coordinates, exactly the objects of the server's table.
  lemma {:induction false} GroupIsTable(ticks: seq<Workspaces.Tick>)
    ensures var w := Workspaces.Run(ticks); Follows(HearAll(NOTHING, w.sent), w.server.handles, w.server.next)
    decreases |ticks|
  {
    if ticks != [] {
      var n := |ticks| - 1;
      var w, t := Workspaces.Run(ticks[..n]), ticks[n];
      GroupIsTable(ticks[..n]);
      RefreshFollows(HearAll(NOTHING, w.sent), w.server, t.ws, t.dead, t.grants);
      HearAppend(NOTHING, w.sent, Refresh(w.server, t.ws, t.dead, t.grants).1);
    }
  }
}
