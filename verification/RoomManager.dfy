/** All rooms of a server, the shared editor documents, and the sweep that destroys idle rooms.

    `rooms` holds the live rooms by code. A destroyed room leaves the map and keeps existing in
    `retired`, where joins that were in flight may still act on it. Room codes are not reused.
 */
module RoomManager {
  import opened Common
  import opened RoomModel
  import RoomProtocol

  type Rooms = map<nat, RoomProtocol.State>

  /** A room and the documents registered under its code are destroyed together. */
  datatype Server = Server(rooms: Rooms, retired: Rooms, docs: set<nat>)

  const EMPTY := Server(map[], map[], {})

  predicate Idle(s: RoomProtocol.State, ttlMs: int, now: int) {
    ConnectedCount(s.room.users) == 0 && now - s.room.lastActivityAt >= ttlMs
  }

  /** `destroyRoom`: timers, then the destroy listeners, then the map entry. */
  function DestroyRoom(v: Server, code: nat): Server {
    if code !in v.rooms then v
    else Server(v.rooms - {code}, v.retired[code := RoomProtocol.Destroyed(v.rooms[code])], v.docs - {code})
  }

  function IdleCodes(rooms: Rooms, ttlMs: int, now: int): set<nat> {
    set code | code in rooms && Idle(rooms[code], ttlMs, now)
  }

  function Retire(rooms: Rooms, codes: set<nat>): Rooms {
    map code | code in codes && code in rooms :: RoomProtocol.Destroyed(rooms[code])
  }

  /** The idle rooms among `visited` are destroyed, all of them and no others. */
  function SweptAmong(v: Server, visited: set<nat>, ttlMs: int, now: int): Server {
    var idle := IdleCodes(v.rooms, ttlMs, now) * visited;
    Server(v.rooms - idle, v.retired + Retire(v.rooms, idle), v.docs - idle)
  }

  /** What the sweep should do. */
  function Swept(v: Server, ttlMs: int, now: int): Server {
    SweptAmong(v, v.rooms.Keys, ttlMs, now)
  }

  datatype Event =
    | Create(code: nat, mode: Mode, submissionLimit: int, testCaseLimit: int, now: int)
    | InRoom(code: nat, event: RoomProtocol.Event)
    | Sweep(ttlMs: int, now: int)
    | EditorConnected(name: nat, tokenMatches: bool)  // the segment after the access check
    | EditorServerClosed

  /** What happens to one room; a step in which it dies takes the room out of the map and its
      document with it. */
  function StepRoom(v: Server, code: nat, e: RoomProtocol.Event): Server {
    if code in v.rooms then
      var s := RoomProtocol.Step(v.rooms[code], e);
      if s.live then v.(rooms := v.rooms[code := s])
      else Server(v.rooms - {code}, v.retired[code := s], v.docs - {code})
    else if code in v.retired then v.(retired := v.retired[code := RoomProtocol.Step(v.retired[code], e)])
    else v
  }

  function Step(v: Server, maxRooms: int, e: Event): Server {
    match e
    case Create(code, mode, submissionLimit, testCaseLimit, now) =>
      if |v.rooms| >= maxRooms || code in v.rooms || code in v.retired then v
      else v.(rooms := v.rooms[code := RoomProtocol.Fresh(mode, submissionLimit, testCaseLimit, now)])
    case InRoom(code, event) => StepRoom(v, code, event)
    case Sweep(ttlMs, now) => Swept(v, ttlMs, now)
    case EditorConnected(name, tokenMatches) =>
      if name in v.rooms && tokenMatches then v.(docs := v.docs + {name}) else v
    case EditorServerClosed => v.(docs := {})
  }

  function Run(v: Server, maxRooms: int, events: seq<Event>): Server
    decreases |events|
  {
    if events == [] then v else Run(Step(v, maxRooms, events[0]), maxRooms, events[1..])
  }

  ghost predicate Inv(v: Server, maxRooms: int) {
    && Sound(v)
    && |v.rooms| <= Max(0, maxRooms)
  }

  ghost predicate Sound(v: Server) {
    && (forall name :: name in v.docs ==> name in v.rooms)
    && (forall code :: code in v.retired ==> code !in v.rooms)
    && (forall code :: code in v.rooms ==> v.rooms[code].live && RoomProtocol.Reachable(v.rooms[code]))
    && (forall code :: code in v.retired ==> !v.retired[code].live && RoomProtocol.Reachable(v.retired[code]))
  }

  lemma {:induction false} RunAppend(s: RoomProtocol.State, events: seq<RoomProtocol.Event>, e: RoomProtocol.Event)
    ensures RoomProtocol.Run(s, events + [e]) == RoomProtocol.Step(RoomProtocol.Run(s, events), e)
    decreases |events|
  {
    if events == [] {
      assert [] + [e] == [e] && [e][1..] == [];
    } else {
      assert (events + [e])[1..] == events[1..] + [e];
      RunAppend(RoomProtocol.Step(s, events[0]), events[1..], e);
    }
  }

  lemma ReachableStep(s: RoomProtocol.State, e: RoomProtocol.Event)
    requires RoomProtocol.Reachable(s)
    ensures RoomProtocol.Reachable(RoomProtocol.Step(s, e))
  {
    var mode, submissionLimit, testCaseLimit, now, events :|
      s == RoomProtocol.Run(RoomProtocol.Fresh(mode, submissionLimit, testCaseLimit, now), events);
    RunAppend(RoomProtocol.Fresh(mode, submissionLimit, testCaseLimit, now), events, e);
  }

  lemma ReachableFresh(mode: Mode, submissionLimit: int, testCaseLimit: int, now: int)
    ensures RoomProtocol.Reachable(RoomProtocol.Fresh(mode, submissionLimit, testCaseLimit, now))
  {
    var s := RoomProtocol.Fresh(mode, submissionLimit, testCaseLimit, now);
    assert s == RoomProtocol.Run(s, []);
  }

  /** Being destroyed by the sweep is an event of the room's own protocol. */
  lemma ReachableDestroyed(s: RoomProtocol.State)
    requires RoomProtocol.Reachable(s) && s.live && ConnectedCount(s.room.users) == 0
    ensures RoomProtocol.Reachable(RoomProtocol.Destroyed(s)) && !RoomProtocol.Destroyed(s).live
  {
    ReachableStep(s, RoomProtocol.Event.Swept);
  }

  lemma DeadStaysDead(s: RoomProtocol.State, e: RoomProtocol.Event)
    requires !s.live
    ensures !RoomProtocol.Step(s, e).live
  {
  }

  lemma Smaller(rooms: Rooms, gone: set<nat>)
    ensures |rooms - gone| <= |rooms|
  {
    var kept := rooms - gone;
    assert kept.Keys <= rooms.Keys;
    SubsetSize(kept.Keys, rooms.Keys);
    assert |kept| == |kept.Keys| && |rooms| == |rooms.Keys|;
  }

  lemma {:induction false} SubsetSize(a: set<nat>, b: set<nat>)
    requires a <= b
    ensures |a| <= |b|
    decreases |a|
  {
    if a != {} {
      var x :| x in a;
      SubsetSize(a - {x}, b - {x});
    }
  }

  lemma RetiredAreReachable(rooms: Rooms, ttlMs: int, now: int, codes: set<nat>)
    requires codes <= IdleCodes(rooms, ttlMs, now)
    requires forall code :: code in rooms ==> rooms[code].live && RoomProtocol.Reachable(rooms[code])
    ensures var r := Retire(rooms, codes); forall code :: code in r ==> !r[code].live && RoomProtocol.Reachable(r[code])
  {
    forall code | code in codes
      ensures RoomProtocol.Reachable(RoomProtocol.Destroyed(rooms[code])) && !RoomProtocol.Destroyed(rooms[code]).live
    {
      ReachableDestroyed(rooms[code]);
    }
  }

  lemma SweepSound(v: Server, ttlMs: int, now: int)
    requires Sound(v)
    ensures Sound(Swept(v, ttlMs, now))
  {
    var idle := IdleCodes(v.rooms, ttlMs, now) * v.rooms.Keys;
    RetiredAreReachable(v.rooms, ttlMs, now, idle);
  }

  lemma SweepKeeps(v: Server, maxRooms: int, ttlMs: int, now: int)
    requires Inv(v, maxRooms)
    ensures Inv(Swept(v, ttlMs, now), maxRooms)
  {
    SweepSound(v, ttlMs, now);
    Smaller(v.rooms, IdleCodes(v.rooms, ttlMs, now) * v.rooms.Keys);
  }

  lemma StepLiveRoomSound(v: Server, code: nat, s: RoomProtocol.State)
    requires Sound(v) && code in v.rooms && RoomProtocol.Reachable(s)
    ensures s.live ==> Sound(v.(rooms := v.rooms[code := s]))
    ensures !s.live ==> Sound(Server(v.rooms - {code}, v.retired[code := s], v.docs - {code}))
  {
  }

  lemma StepLiveRoomKeeps(v: Server, maxRooms: int, code: nat, s: RoomProtocol.State)
    requires Inv(v, maxRooms) && code in v.rooms && RoomProtocol.Reachable(s)
    ensures s.live ==> Inv(v.(rooms := v.rooms[code := s]), maxRooms)
    ensures !s.live ==> Inv(Server(v.rooms - {code}, v.retired[code := s], v.docs - {code}), maxRooms)
  {
    StepLiveRoomSound(v, code, s);
    Smaller(v.rooms, {code});
  }

  lemma StepRetiredRoomKeeps(v: Server, maxRooms: int, code: nat, s: RoomProtocol.State)
    requires Inv(v, maxRooms) && code in v.retired && RoomProtocol.Reachable(s) && !s.live
    ensures Inv(v.(retired := v.retired[code := s]), maxRooms)
  {
  }

  lemma StepRoomKeeps(v: Server, maxRooms: int, code: nat, e: RoomProtocol.Event)
    requires Inv(v, maxRooms)
    ensures Inv(StepRoom(v, code, e), maxRooms)
  {
    if code in v.rooms {
      ReachableStep(v.rooms[code], e);
      StepLiveRoomKeeps(v, maxRooms, code, RoomProtocol.Step(v.rooms[code], e));
    } else if code in v.retired {
      ReachableStep(v.retired[code], e);
      DeadStaysDead(v.retired[code], e);
      StepRetiredRoomKeeps(v, maxRooms, code, RoomProtocol.Step(v.retired[code], e));
    }
  }

  lemma CreateKeeps(v: Server, maxRooms: int, code: nat, s: RoomProtocol.State)
    requires Inv(v, maxRooms) && |v.rooms| < maxRooms && code !in v.rooms && code !in v.retired
    requires s.live && RoomProtocol.Reachable(s)
    ensures Inv(v.(rooms := v.rooms[code := s]), maxRooms)
  {
  }

  lemma EditorKeeps(v: Server, maxRooms: int, docs: set<nat>)
    requires Inv(v, maxRooms) && forall name :: name in docs ==> name in v.rooms
    ensures Inv(v.(docs := docs), maxRooms)
  {
  }

  lemma CreateEventKeeps(v: Server, maxRooms: int, e: Event)
    requires Inv(v, maxRooms) && e.Create?
    ensures Inv(Step(v, maxRooms, e), maxRooms)
  {
    if |v.rooms| < maxRooms && e.code !in v.rooms && e.code !in v.retired {
      ReachableFresh(e.mode, e.submissionLimit, e.testCaseLimit, e.now);
      CreateKeeps(v, maxRooms, e.code, RoomProtocol.Fresh(e.mode, e.submissionLimit, e.testCaseLimit, e.now));
    }
  }

  lemma EditorEventKeeps(v: Server, maxRooms: int, e: Event)
    requires Inv(v, maxRooms) && (e.EditorConnected? || e.EditorServerClosed?)
    ensures Inv(Step(v, maxRooms, e), maxRooms)
  {
    match e
    case EditorConnected(name, tokenMatches) =>
      if name in v.rooms && tokenMatches { EditorKeeps(v, maxRooms, v.docs + {name}); }
    case EditorServerClosed => EditorKeeps(v, maxRooms, {});
  }

  lemma StepKeeps(v: Server, maxRooms: int, e: Event)
    requires Inv(v, maxRooms)
    ensures Inv(Step(v, maxRooms, e), maxRooms)
  {
    match e
    case Create(_, _, _, _, _) => CreateEventKeeps(v, maxRooms, e);
    case InRoom(code, event) => StepRoomKeeps(v, maxRooms, code, event);
    case Sweep(ttlMs, now) => SweepKeeps(v, maxRooms, ttlMs, now);
    case EditorConnected(_, _) => EditorEventKeeps(v, maxRooms, e);
    case EditorServerClosed => EditorEventKeeps(v, maxRooms, e);
  }

  lemma {:induction false} RunKeeps(v: Server, maxRooms: int, events: seq<Event>)
    requires Inv(v, maxRooms)
    ensures Inv(Run(v, maxRooms, events), maxRooms)
    decreases |events|
  {
    if events != [] {
      StepKeeps(v, maxRooms, events[0]);
      RunKeeps(Step(v, maxRooms, events[0]), maxRooms, events[1..]);
    }
  }

  lemma DeadHoldsNoTimer(s: RoomProtocol.State)
    requires RoomProtocol.Reachable(s) && !s.live
    ensures s.room.armed == map[]
  {
    RoomProtocol.ReachableKeeps(s);
  }

  /** In every run with any number of rooms, every shared document is named after a live room,
      destroyed rooms hold no timers and the number of rooms stays within the limit. Rooms do
      not disturb one another: each is in a state it could have reached alone, so that all
      that is proved of a single room holds of every one of them. */
  lemma DocumentsBelongToLiveRooms(maxRooms: int, events: seq<Event>)
    requires maxRooms >= 0
    ensures var v := Run(EMPTY, maxRooms, events);
            && (forall name :: name in v.docs ==> name in v.rooms && v.rooms[name].live)
            && (forall code :: code in v.rooms ==> RoomProtocol.Reachable(v.rooms[code]))
            && (forall code :: code in v.retired ==>
                  RoomProtocol.Reachable(v.retired[code]) && v.retired[code].room.armed == map[])
            && |v.rooms| <= maxRooms
  {
    RunKeeps(EMPTY, maxRooms, events);
    var v := Run(EMPTY, maxRooms, events);
    forall code | code in v.retired ensures v.retired[code].room.armed == map[] {
      DeadHoldsNoTimer(v.retired[code]);
    }
  }

  // ---------------------------------------------------------------------------------------
  // What each event does to which room
  // ---------------------------------------------------------------------------------------

  /** The sweep destroys exactly the live rooms in which nobody is connected and nothing has
      happened for the time limit, each with its document, and leaves every other room alone. */
  lemma SweepDestroysExactly(v: Server, maxRooms: int, ttlMs: int, now: int, code: nat)
    ensures var w := Step(v, maxRooms, Sweep(ttlMs, now));
            var idle := && code in v.rooms && now >= v.rooms[code].room.lastActivityAt + ttlMs
                        && forall i :: 0 <= i < |v.rooms[code].room.users| ==> !v.rooms[code].room.users[i].connected;
            && (code in w.rooms <==> code in v.rooms && !idle)
            && (code in w.rooms ==> w.rooms[code] == v.rooms[code])
            && (code in w.docs <==> code in v.docs && !idle)
            && (idle ==> code in w.retired && !w.retired[code].live)
  {
    if code in v.rooms {
      var us := v.rooms[code].room.users;
      assert (forall u :: u in us ==> !u.connected) <==> forall i :: 0 <= i < |us| ==> !us[i].connected;
    }
  }

  /** A room comes into being exactly when the server has room for it and the code is new; the
      others and the documents stay. */
  lemma CreatesExactly(v: Server, maxRooms: int, code: nat, mode: Mode, submissionLimit: int, testCaseLimit: int,
                       now: int, other: nat)
    requires code !in v.rooms
    ensures var w := Step(v, maxRooms, Create(code, mode, submissionLimit, testCaseLimit, now));
            && (code in w.rooms <==> |v.rooms| < maxRooms && code !in v.retired)
            && (code in w.rooms ==> w.rooms[code] == RoomProtocol.Fresh(mode, submissionLimit, testCaseLimit, now))
            && (other != code ==> (other in w.rooms <==> other in v.rooms)
                                  && (other in w.rooms ==> w.rooms[other] == v.rooms[other]))
            && w.docs == v.docs && w.retired == v.retired
  {
  }

  /** What happens in a room is a step of its own protocol and of nobody else's; the room leaves
      the map, with its document, exactly when that step destroys it. */
  lemma RoomsDoNotDisturb(v: Server, maxRooms: int, code: nat, e: RoomProtocol.Event, other: nat)
    requires code in v.rooms
    ensures var w := Step(v, maxRooms, InRoom(code, e));
            var s := RoomProtocol.Step(v.rooms[code], e);
            && (code in w.rooms <==> s.live)
            && (if s.live then w.rooms[code] == s && w.docs == v.docs
                else code in w.retired && w.retired[code] == s && w.docs == v.docs - {code})
            && (other != code ==> (other in w.rooms <==> other in v.rooms)
                                  && (other in w.rooms ==> w.rooms[other] == v.rooms[other]))
  {
  }

  /** A destroyed room goes on as its own protocol says, for whoever still holds it, and never
      comes back. */
  lemma RetiredRoomsGoOn(v: Server, maxRooms: int, code: nat, e: RoomProtocol.Event)
    requires code in v.retired && code !in v.rooms
    ensures var w := Step(v, maxRooms, InRoom(code, e));
            w == v.(retired := w.retired) && w.retired == v.retired[code := RoomProtocol.Step(v.retired[code], e)]
  {
  }

  /** An editor gets a document exactly for a live room and its present token; closing the editor
      server drops all documents. Neither touches a room. */
  lemma DocumentsExactly(v: Server, maxRooms: int, name: nat, tokenMatches: bool, other: nat)
    ensures var w := Step(v, maxRooms, EditorConnected(name, tokenMatches));
            && (other in w.docs <==> other in v.docs || (other == name && name in v.rooms && tokenMatches))
            && w.rooms == v.rooms && w.retired == v.retired
    ensures var w := Step(v, maxRooms, EditorServerClosed);
            w.docs == {} && w.rooms == v.rooms && w.retired == v.retired
  {
  }

  lemma RetireOneMore(rooms: Rooms, retired: Rooms, codes: set<nat>, code: nat)
    requires code in rooms
    ensures retired + Retire(rooms, codes + {code})
            == (retired + Retire(rooms, codes))[code := RoomProtocol.Destroyed(rooms[code])]
  {
  }

  lemma VisitOne(v: Server, visited: set<nat>, code: nat, ttlMs: int, now: int)
    requires code !in visited && code in v.rooms
    ensures SweptAmong(v, visited + {code}, ttlMs, now)
            == if Idle(v.rooms[code], ttlMs, now) then DestroyRoom(SweptAmong(v, visited, ttlMs, now), code)
               else SweptAmong(v, visited, ttlMs, now)
  {
    var idle := IdleCodes(v.rooms, ttlMs, now);
    if Idle(v.rooms[code], ttlMs, now) {
      var some := idle * visited;
      assert idle * (visited + {code}) == some + {code};
      RetireOneMore(v.rooms, v.retired, some, code);
      assert v.rooms - (some + {code}) == (v.rooms - some) - {code};
      assert v.docs - (some + {code}) == (v.docs - some) - {code};
    } else {
      assert idle * (visited + {code}) == idle * visited;
    }
  }

  /** Visiting one more code: it is destroyed and counted exactly when it names an idle room. */
  lemma Visit(v: Server, visited: set<nat>, code: nat, ttlMs: int, now: int)
    requires code !in visited
    ensures var idle := IdleCodes(v.rooms, ttlMs, now);
            var (before, after) := (SweptAmong(v, visited, ttlMs, now), SweptAmong(v, visited + {code}, ttlMs, now));
            && (code in idle <==> code in before.rooms && Idle(before.rooms[code], ttlMs, now))
            && after == (if code in idle then DestroyRoom(before, code) else before)
            && |idle * (visited + {code})| == |idle * visited| + (if code in idle then 1 else 0)
  {
    var idle := IdleCodes(v.rooms, ttlMs, now);
    assert idle * (visited + {code}) == if code in idle then idle * visited + {code} else idle * visited;
    if code in v.rooms {
      VisitOne(v, visited, code, ttlMs, now);
    }
  }

  ghost predicate NoRepeats(order: seq<nat>) {
    forall i, j :: 0 <= i < j < |order| ==> order[i] != order[j]
  }

  ghost function Codes(order: seq<nat>): set<nat> { set code | code in order }

  lemma NextCodeIsNew(order: seq<nat>, i: nat)
    requires NoRepeats(order) && i < |order|
    ensures order[i] !in Codes(order[..i]) && Codes(order[..i + 1]) == Codes(order[..i]) + {order[i]}
  {
    assert order[..i + 1] == order[..i] + [order[i]];
  }

  lemma VisitedAll(v: Server, order: seq<nat>, ttlMs: int, now: int)
    requires forall code :: code in v.rooms ==> code in order
    ensures SweptAmong(v, Codes(order[..|order|]), ttlMs, now) == Swept(v, ttlMs, now)
    ensures IdleCodes(v.rooms, ttlMs, now) * Codes(order[..|order|]) == IdleCodes(v.rooms, ttlMs, now)
  {
    assert order[..|order|] == order;
    var idle := IdleCodes(v.rooms, ttlMs, now);
    assert idle * Codes(order) == idle == idle * v.rooms.Keys;
  }

  lemma VisitedNone(v: Server, order: seq<nat>, ttlMs: int, now: int)
    ensures SweptAmong(v, Codes(order[..0]), ttlMs, now) == v
    ensures IdleCodes(v.rooms, ttlMs, now) * Codes(order[..0]) == {}
  {
    assert IdleCodes(v.rooms, ttlMs, now) * Codes(order[..0]) == {};
    assert v.rooms - {} == v.rooms && v.docs - {} == v.docs && v.retired + Retire(v.rooms, {}) == v.retired;
  }

  // ---------------------------------------------------------------------------------------
  // The manager as the source writes it
  // ---------------------------------------------------------------------------------------

  class RoomManager {
    const maxActiveRooms: int
    var rooms: Rooms
    /** The codes in insertion order, as the iteration of a `Map` visits them. An entry whose
        code has left `rooms` is a deleted one, which the iteration passes over. */
    var order: seq<nat>
    var docs: set<nat>
    ghost var retired: Rooms

    ghost function Abstract(): Server
      reads this
    {
      Server(rooms, retired, docs)
    }

    ghost predicate Valid()
      reads this
    {
      && NoRepeats(order)
      && (forall code :: code in rooms ==> code in order)
    }

    constructor (maxActiveRooms: int)
      ensures Valid() && Abstract() == EMPTY && this.maxActiveRooms == maxActiveRooms
    {
      this.maxActiveRooms := maxActiveRooms;
      rooms, order, docs, retired := map[], [], {}, map[];
    }

    /** Fails when the server is full; `code` is a code never used before. */
    method CreateRoom(code: nat, mode: Mode, submissionLimit: int, testCaseLimit: int, now: int) returns (created: bool)
      requires Valid() && code !in order && code !in retired
      modifies this
      ensures Valid() && created == (|old(rooms)| < maxActiveRooms)
      ensures Abstract() == Step(old(Abstract()), maxActiveRooms,
                                 Create(code, mode, submissionLimit, testCaseLimit, now))
    {
      if |rooms| >= maxActiveRooms {
        return false;
      }
      rooms := rooms[code := RoomProtocol.Fresh(mode, submissionLimit, testCaseLimit, now)];
      order := order + [code];
      return true;
    }

    method Destroy(code: nat)
      requires Valid()
      modifies this
      ensures Valid() && order == old(order)
      ensures Abstract() == DestroyRoom(old(Abstract()), code)
    {
      if code !in rooms {
        return;
      }
      retired := retired[code := RoomProtocol.Destroyed(rooms[code])];
      DestroySharedDoc(code);
      rooms := rooms - {code};
    }

    method DestroySharedDoc(name: nat)
      modifies this`docs
      ensures docs == old(docs) - {name}
    {
      if name !in docs {
        return;
      }
      docs := docs - {name};
    }

    /** The check of the room and its token, and the document's creation, in one segment. */
    method ConnectEditor(name: nat, tokenMatches: bool) returns (accepted: bool)
      requires Valid()
      modifies this`docs
      ensures Valid() && accepted == (name in rooms && tokenMatches)
      ensures Abstract() == Step(old(Abstract()), maxActiveRooms, EditorConnected(name, tokenMatches))
    {
      if name !in rooms || !tokenMatches {
        return false;
      }
      if name !in docs {
        docs := docs + {name};
      }
      return true;
    }

    /** Deletes from the map while iterating over it. */
    method DestroyIdleRooms(ttlMs: int, now: int) returns (destroyed: nat)
      requires Valid()
      modifies this
      ensures Valid() && Abstract() == Swept(old(Abstract()), ttlMs, now)
      ensures destroyed == |IdleCodes(old(rooms), ttlMs, now)|
    {
      destroyed := 0;
      ghost var start := Abstract();
      VisitedNone(start, order, ttlMs, now);
      var i := 0;
      while i < |order|
        invariant 0 <= i <= |order| && order == old(order) && Valid()
        invariant Abstract() == SweptAmong(start, Codes(order[..i]), ttlMs, now)
        invariant destroyed == |IdleCodes(start.rooms, ttlMs, now) * Codes(order[..i])|
      {
        var code := order[i];
        NextCodeIsNew(order, i);
        Visit(start, Codes(order[..i]), code, ttlMs, now);
        if code in rooms && ConnectedCount(rooms[code].room.users) == 0
            && now - rooms[code].room.lastActivityAt >= ttlMs {
          Destroy(code);
          destroyed := destroyed + 1;
        }
        i := i + 1;
      }
      VisitedAll(start, order, ttlMs, now);
    }
  }
}
