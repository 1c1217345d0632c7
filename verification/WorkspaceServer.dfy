// ext-workspace-v1, compositor side: each tick the real workspaces are compared with the last
// snapshot sent to a client, and only the differences are sent, closed by one `done`.

module WorkspaceServer {
  import opened Prelude
  import opened Decimal

  datatype Info = Info(id: u64, name: bytes, active: bool)

  type Handle = nat

  datatype Event =
    | GroupCreated(group: Handle)
    | GroupCapabilities(group: Handle)
    | Created(h: Handle)
    | IdIs(h: Handle, wire: bytes)
    | NameIs(h: Handle, name: bytes)
    | CoordinatesAre(h: Handle, coordinates: bytes)
    | CapabilitiesAre(h: Handle)
    | StateIs(h: Handle, active: bool)
    | Entered(h: Handle)
    | Left(h: Handle)
    | Removed(h: Handle)
    | Done
    | Finished

  // One bound client. `next` numbers the attempts to create a protocol object.
  datatype Server = Server(group: Option<Handle>, handles: map<u64, Handle>, last: seq<Info>, next: Handle)

  const UNBOUND := Server(None, map[], [], 0)

  const ID_PREFIX: bytes := Ascii("emskin-ws-")

  function WireId(id: u64): bytes {
    ID_PREFIX + Print(id)
  }

  // The first entry with the id.
  function Lookup(ws: seq<Info>, id: u64): Option<Info> {
    if ws == [] then None
    else if ws[0].id == id then Some(ws[0])
    else Lookup(ws[1..], id)
  }

  function NewEvents(h: Handle, w: Info): seq<Event> {
    [Created(h), IdIs(h, WireId(w.id)), NameIs(h, w.name),
     CoordinatesAre(h, EncodeUInt(Little, w.id % 0x1_0000_0000, 4)), CapabilitiesAre(h),
     StateIs(h, w.active), Entered(h)]
  }

  function DiffEvents(h: Handle, was: Option<Info>, w: Info): seq<Event> {
    (if was.Some? && was.value.name == w.name then [] else [NameIs(h, w.name)])
    + (if (was.Some? && was.value.active) == w.active then [] else [StateIs(h, w.active)])
  }

  // Partway through a refresh: the handle table and the events sent so far.
  datatype Walk = Walk(handles: map<u64, Handle>, next: Handle, events: seq<Event>)

  // Which attempts to create a protocol object succeed.
  type Grants = Handle -> bool

  function DropOne(k: Walk, id: u64): Walk {
    if id in k.handles then
      var h := k.handles[id];
      k.(handles := k.handles - {id}, events := k.events + [Left(h), Removed(h)])
    else k
  }

  function DropAll(k: Walk, dead: seq<u64>): Walk
    decreases |dead|
  {
    if dead == [] then k else DropAll(DropOne(k, dead[0]), dead[1..])
  }

  function SyncOne(k: Walk, last: seq<Info>, w: Info, grants: Grants): Walk {
    if w.id in k.handles then
      k.(events := k.events + DiffEvents(k.handles[w.id], Lookup(last, w.id), w))
    else if grants(k.next) then
      Walk(k.handles[w.id := k.next], k.next + 1, k.events + NewEvents(k.next, w))
    else k.(next := k.next + 1)
  }

  function SyncAll(k: Walk, last: seq<Info>, ws: seq<Info>, grants: Grants): Walk
    decreases |ws|
  {
    if ws == [] then k else SyncAll(SyncOne(k, last, ws[0], grants), last, ws[1..], grants)
  }

  // The removed ids, in whatever order the table yields them.
  ghost predicate DeadOrder(handles: map<u64, Handle>, ws: seq<Info>, dead: seq<u64>) {
    forall id :: id in dead <==> id in handles && Lookup(ws, id).None?
  }

  function StartWalk(s: Server): Walk {
    if s.group.None? then Walk(s.handles, s.next + 1, [GroupCreated(s.next), GroupCapabilities(s.next)])
    else Walk(s.handles, s.next, [])
  }

  function Body(s: Server, ws: seq<Info>, dead: seq<u64>, grants: Grants): Walk {
    SyncAll(DropAll(StartWalk(s), dead), s.last, ws, grants)
  }

  // One tick: the new state and the events sent.
  function Refresh(s: Server, ws: seq<Info>, dead: seq<u64>, grants: Grants): (Server, seq<Event>) {
    if s.group.None? && !grants(s.next) then (s.(next := s.next + 1), [])
    else
      var group := if s.group.None? then Some(s.next) else s.group;
      var k := Body(s, ws, dead, grants);
      if k.events == [] then (Server(group, k.handles, s.last, k.next), [])
      else (Server(group, k.handles, ws, k.next), k.events + [Done])
  }

  // ---------------------------------------------------------------------
  // The loops of the code
  // ---------------------------------------------------------------------

  lemma DropNext(k: Walk, dead: seq<u64>, i: nat)
    requires i < |dead|
    ensures DropAll(k, dead[i..]) == DropAll(DropOne(k, dead[i]), dead[i + 1..])
  {
    assert dead[i..][0] == dead[i] && dead[i..][1..] == dead[i + 1..];
  }

  lemma SyncNext(k: Walk, last: seq<Info>, ws: seq<Info>, i: nat, grants: Grants)
    requires i < |ws|
    ensures SyncAll(k, last, ws[i..], grants) == SyncAll(SyncOne(k, last, ws[i], grants), last, ws[i + 1..], grants)
  {
    assert ws[i..][0] == ws[i] && ws[i..][1..] == ws[i + 1..];
  }

  // Linear search for an id.
  method Find(ws: seq<Info>, id: u64) returns (r: Option<Info>)
    ensures r == Lookup(ws, id)
  {
    var i := 0;
    while i < |ws|
      invariant i <= |ws| && Lookup(ws, id) == Lookup(ws[i..], id)
    {
      assert ws[i..][0] == ws[i] && ws[i..][1..] == ws[i + 1..];
      if ws[i].id == id {
        return Some(ws[i]);
      }
      i := i + 1;
    }
    return None;
  }

  class ManagerInstance {
    var stopped: bool
    var group: Option<Handle>
    var workspaces: map<u64, Handle>
    var lastSnapshot: seq<Info>
    var nextObject: Handle

    function Abstract(): Server
      reads this
    {
      Server(group, workspaces, lastSnapshot, nextObject)
    }

    constructor ()
      ensures Abstract() == UNBOUND && !stopped
    {
      stopped := false;
      group, workspaces, lastSnapshot, nextObject := None, map[], [], 0;
    }

    // The client wants no more events.
    method Stop() returns (sent: seq<Event>)
      modifies this`stopped
      ensures stopped && sent == [Finished]
    {
      stopped := true;
      sent := [Finished];
    }

    // Compares, sends what changed, and remembers the snapshot if anything did; a manager that was
    // stopped, is dead or has no client is left alone.
    method Tick(alive: bool, hasClient: bool, ws: seq<Info>, grants: Grants)
      returns (sent: seq<Event>, ghost dead: seq<u64>)
      modifies this
      ensures stopped == old(stopped)
      ensures !stopped && alive && hasClient ==>
                DeadOrder(old(workspaces), ws, dead) &&
                (Abstract(), sent) == Refresh(old(Abstract()), ws, dead, grants)
      ensures !(!stopped && alive && hasClient) ==> Abstract() == old(Abstract()) && sent == []
    {
      dead := [];
      if stopped || !alive {
        return [], [];
      }
      var events, changed;
      events, changed, dead := RefreshInstance(hasClient, ws, grants);
      if changed {
        sent := events + [Done];
        lastSnapshot := ws;
      } else {
        sent := events;
      }
    }

    method RefreshInstance(hasClient: bool, ws: seq<Info>, grants: Grants)
      returns (events: seq<Event>, changed: bool, ghost dead: seq<u64>)
      modifies this`group, this`workspaces, this`nextObject
      ensures hasClient ==> DeadOrder(old(workspaces), ws, dead)
      ensures changed <==> events != []
      ensures if !hasClient then Abstract() == old(Abstract()) && events == []
              else if old(group).None? && !grants(old(nextObject)) then
                Abstract() == old(Abstract()).(next := old(nextObject) + 1) && events == []
              else
                && Walk(workspaces, nextObject, events) == Body(old(Abstract()), ws, dead, grants)
                && group == (if old(group).None? then Some(old(nextObject)) else old(group))
    {
      events, changed, dead := [], false, [];
      if !hasClient {
        return;
      }
      var deadIds := DeadIds(ws);
      dead := deadIds;
      if group.None? {
        var attempt := nextObject;
        nextObject := nextObject + 1;
        if !grants(attempt) {
          return;
        }
        events := [GroupCreated(attempt), GroupCapabilities(attempt)];
        group := Some(attempt);
      }
      events := RemoveDead(deadIds, events);
      events := CreateOrUpdate(ws, grants, events);
      changed := events != [];
    }

    // Remove workspaces that no longer exist.
    method RemoveDead(deadIds: seq<u64>, sent: seq<Event>) returns (events: seq<Event>)
      modifies this`workspaces
      ensures Walk(workspaces, nextObject, events) == DropAll(Walk(old(workspaces), nextObject, sent), deadIds)
    {
      events := sent;
      var i := 0;
      while i < |deadIds|
        invariant i <= |deadIds|
        invariant DropAll(Walk(old(workspaces), nextObject, sent), deadIds) ==
            DropAll(Walk(workspaces, nextObject, events), deadIds[i..])
      {
        DropNext(Walk(workspaces, nextObject, events), deadIds, i);
        var id := deadIds[i];
        if id in workspaces {
          var handle := workspaces[id];
          workspaces := workspaces - {id};
          events := events + [Left(handle), Removed(handle)];
        }
        i := i + 1;
      }
    }

    // Create or update workspaces.
    method CreateOrUpdate(ws: seq<Info>, grants: Grants, sent: seq<Event>) returns (events: seq<Event>)
      modifies this`workspaces, this`nextObject
      ensures Walk(workspaces, nextObject, events) ==
              SyncAll(Walk(old(workspaces), old(nextObject), sent), lastSnapshot, ws, grants)
    {
      events := sent;
      ghost var k := Walk(workspaces, nextObject, events);
      var i := 0;
      while i < |ws|
        invariant i <= |ws|
        invariant SyncAll(k, lastSnapshot, ws, grants) ==
            SyncAll(Walk(workspaces, nextObject, events), lastSnapshot, ws[i..], grants)
      {
        var w := ws[i];
        SyncNext(Walk(workspaces, nextObject, events), lastSnapshot, ws, i, grants);
        i := i + 1;
        if w.id !in workspaces {
          var attempt := nextObject;
          nextObject := nextObject + 1;
          if !grants(attempt) {
            continue;
          }
          events := events + NewEvents(attempt, w);
          workspaces := workspaces[w.id := attempt];
          continue;
        }
        var changes := Update(workspaces[w.id], w);
        events := events + changes;
      }
    }

    // Existing workspace: what changed since the last snapshot.
    method Update(handle: Handle, w: Info) returns (events: seq<Event>)
      ensures events == DiffEvents(handle, Lookup(lastSnapshot, w.id), w)
    {
      events := [];
      var before := Find(lastSnapshot, w.id);
      if before.None? || before.value.name != w.name {
        events := events + [NameIs(handle, w.name)];
      }
      var wasActive := before.Some? && before.value.active;
      if wasActive != w.active {
        events := events + [StateIs(handle, w.active)];
      }
    }

    // Ids with a handle that the snapshot no longer has.
    method DeadIds(ws: seq<Info>) returns (dead: seq<u64>)
      ensures DeadOrder(workspaces, ws, dead)
    {
      dead := [];
      var todo := workspaces.Keys;
      while todo != {}
        invariant todo <= workspaces.Keys
        invariant forall id :: id in dead <==> id in workspaces && id !in todo && Lookup(ws, id).None?
        decreases |todo|
      {
        var id :| id in todo;
        todo := todo - {id};
        var found := Find(ws, id);
        if found.None? {
          dead := dead + [id];
        }
      }
    }
  }
}
