/** Joins that outlive their socket: exactly when a socket that is gone can still be given a slot. */
module LateJoins {
  import opened Common
  import opened RoomModel
  import opened RoomProtocol
  import opened RoomSlots

  predicate Holds(s: State, socket: nat) { BySocket(s.room.users, socket) >= 0 }

  /** The socket asks for no further join: a socket that has disconnected never does. */
  ghost predicate Silent(events: seq<Event>, socket: nat) {
    forall i :: 0 <= i < |events| && events[i].JoinRequested? ==> events[i].socket != socket
  }

  ghost predicate CanBeSeated(s: State, socket: nat) {
    exists events :: Silent(events, socket) && Holds(Run(s, events), socket)
  }

  predicate IsSeat(u: User, socket: nat) { u.socket == Some(socket) && u.connected }

  ghost predicate NotIn(us: seq<User>, socket: nat) {
    forall i :: 0 <= i < |us| ==> !IsSeat(us[i], socket)
  }

  lemma HoldsASeat(s: State, socket: nat)
    ensures Holds(s, socket) <==> !NotIn(s.room.users, socket)
  {
    var i := BySocket(s.room.users, socket);
    assert i >= 0 ==> IsSeat(s.room.users[i], socket);
  }

  lemma AdmitLeavesOut(s: State, other: nat, name: string, now: int, socket: nat)
    requires NotIn(s.room.users, socket) && other != socket
    ensures NotIn(Admit(s, other, name, now).room.users, socket)
  {
  }

  lemma CheckLeavesOut(s: State, other: nat, allowed: bool, now: int, socket: nat)
    requires NotIn(s.room.users, socket) && other != socket
    ensures NotIn(CheckJoin(s, other, allowed, now).room.users, socket)
  {
    if other in s.joins && s.joins[other].Checking? && allowed {
      match s.joins[other].token
      case None => AdmitLeavesOut(s, other, s.joins[other].name, now, socket);
      case Some(token) =>
    }
  }

  lemma LoseSocketEffect(s: State, other: nat)
    ensures LoseSocket(s, other).joins == s.joins && LoseSocket(s, other).live == s.live
  {
  }

  lemma RequesterGoneEffect(s: State)
    ensures var t := RequesterGone(s); t.joins == s.joins && t.live == s.live && t.room.users == s.room.users
  {
  }

  lemma DisconnectEffect(s: State, other: nat)
    ensures var t := Disconnect(s, other);
            t.joins == s.joins && t.live == s.live && (s.live ==> t.room.users == LoseSocket(s, other).room.users)
  {
    LoseSocketEffect(s, other);
    RequesterGoneEffect(LoseSocket(s, other));
  }

  lemma DisconnectLeaves(s: State, other: nat, socket: nat)
    requires NotIn(s.room.users, socket)
    ensures Disconnect(s, other).joins == s.joins && NotIn(Disconnect(s, other).room.users, socket)
  {
    DisconnectEffect(s, other);
    assert NotIn(LoseSocket(s, other).room.users, socket);
  }

  lemma ExpiryLeavesOut(s: State, timer: nat, socket: nat)
    requires NotIn(s.room.users, socket)
    ensures ExpireGrace(s, timer).joins == s.joins && NotIn(ExpireGrace(s, timer).room.users, socket)
  {
    if timer in s.room.armed {
      var vs := Without(s.room.users, s.room.armed[timer]);
      forall i | 0 <= i < |vs| ensures !IsSeat(vs[i], socket) {
        assert vs[i] in s.room.users;
      }
    }
  }

  lemma JoiningLeavesOut(s: State, e: Event, socket: nat)
    requires socket !in s.joins && NotIn(s.room.users, socket)
    requires (e.JoinRequested? && e.socket != socket) || e.JoinChecked? || e.JoinResumed?
    ensures socket !in Step(s, e).joins && NotIn(Step(s, e).room.users, socket)
  {
    match e
    case JoinChecked(other, allowed, now) => if other in s.joins { CheckLeavesOut(s, other, allowed, now, socket); }
    case JoinResumed(other, now) =>
      if other in s.joins && s.joins[other].Adding? { AdmitLeavesOut(s, other, s.joins[other].name, now, socket); }
    case _ =>
  }

  lemma LeavingLeavesOut(s: State, e: Event, socket: nat)
    requires NotIn(s.room.users, socket) && (e.Disconnected? || e.GraceExpired? || e.Swept?)
    ensures Step(s, e).joins == s.joins && NotIn(Step(s, e).room.users, socket)
  {
    match e
    case Disconnected(other) => DisconnectLeaves(s, other, socket);
    case GraceExpired(timer) => ExpiryLeavesOut(s, timer, socket);
    case _ =>
  }

  predicate Untouched(s: State, t: State) {
    t.joins == s.joins && t.room.users == s.room.users && t.live == s.live
  }

  lemma RequestHintStays(s: State, socket: nat, cooledDown: bool)
    ensures var t := RequestHint(s, socket, cooledDown); Untouched(s, t)
  {
  }

  lemma AnswerStays(s: State, socket: nat)
    ensures var t := AnswerHint(s, socket); Untouched(s, t)
  {
  }

  lemma TimeoutStays(s: State, timer: nat)
    ensures var t := ExpireConsent(s, timer); Untouched(s, t)
  {
  }

  lemma SwitchStays(s: State, problem: nat, hintLimit: int, now: int)
    ensures var t := LoadProblem(s, problem, hintLimit, now); Untouched(s, t)
  {
  }

  lemma OthersStay(s: State, e: Event)
    requires e.HintRequested? || e.HintAnswered? || e.ConsentExpired? || e.ProblemLoaded? || e.TestcaseChecked?
              || e.Elsewhere?
    ensures Untouched(s, Step(s, e))
  {
    match e
    case HintRequested(socket, cooledDown) => RequestHintStays(s, socket, cooledDown);
    case HintAnswered(socket) => AnswerStays(s, socket);
    case ConsentExpired(timer) => TimeoutStays(s, timer);
    case ProblemLoaded(problem, hintLimit, now) => SwitchStays(s, problem, hintLimit, now);
    case _ =>
  }

  /** Without a join in flight no event but a new request brings a socket in. */
  lemma StepLeavesOut(s: State, e: Event, socket: nat)
    requires socket !in s.joins && NotIn(s.room.users, socket) && (e.JoinRequested? ==> e.socket != socket)
    ensures socket !in Step(s, e).joins && NotIn(Step(s, e).room.users, socket)
  {
    if e.JoinRequested? || e.JoinChecked? || e.JoinResumed? {
      JoiningLeavesOut(s, e, socket);
    } else if e.Disconnected? || e.GraceExpired? || e.Swept? {
      LeavingLeavesOut(s, e, socket);
    } else {
      OthersStay(s, e);
    }
  }

  lemma {:induction false} RunLeavesOut(s: State, events: seq<Event>, socket: nat)
    requires socket !in s.joins && NotIn(s.room.users, socket) && Silent(events, socket)
    ensures NotIn(Run(s, events).room.users, socket)
    decreases |events|
  {
    if events != [] {
      StepLeavesOut(s, events[0], socket);
      assert forall i :: 0 <= i < |events| - 1 ==> events[1..][i] == events[i + 1];
      RunLeavesOut(Step(s, events[0]), events[1..], socket);
    }
  }

  lemma SilentCons(e: Event, events: seq<Event>, socket: nat)
    requires Silent(events, socket) && (e.JoinRequested? ==> e.socket != socket)
    ensures Silent([e] + events, socket)
  {
    var all := [e] + events;
    assert forall i :: 1 <= i < |all| ==> all[i] == events[i - 1];
  }

  lemma RunOneMore(s: State, e: Event, events: seq<Event>)
    ensures Run(s, [e] + events) == Run(Step(s, e), events)
  {
    assert ([e] + events)[1..] == events;
  }

  lemma SeatedAfter(s: State, e: Event, socket: nat)
    requires CanBeSeated(Step(s, e), socket) && (e.JoinRequested? ==> e.socket != socket)
    ensures CanBeSeated(s, socket)
  {
    var events :| Silent(events, socket) && Holds(Run(Step(s, e), events), socket);
    var all := [e] + events;
    RunOneMore(s, e, events);
    SilentCons(e, events, socket);
  }

  lemma SeatedNow(s: State, socket: nat)
    requires Holds(s, socket)
    ensures CanBeSeated(s, socket)
  {
    assert Silent([], socket) && Run(s, []) == s;
  }

  lemma AdmittedHolds(s: State, socket: nat, name: string, now: int)
    requires !IsFull(s.room)
    ensures Holds(Admit(s, socket, name, now), socket)
  {
    var us := Admit(s, socket, name, now).room.users;
    assert us[|us| - 1].socket == Some(socket) && us[|us| - 1].connected;
  }

  lemma ReclaimedHolds(s: State, i: nat, socket: nat, token: nat, now: int)
    requires Inv(s) && i < |s.room.users| && socket in s.joins && ByReconnectToken(s.room.users, token) == i
    ensures Holds(Reclaim(s, i, socket, token, now), socket)
  {
    ReclaimEffect(s, i, socket, token, now);
    var us := Reclaim(s, i, socket, token, now).room.users;
    assert us[i].socket == Some(socket) && us[i].connected;
  }

  lemma ResumedIsSeated(s: State, socket: nat)
    requires socket in s.joins && s.joins[socket].Adding? && !IsFull(s.room)
    ensures CanBeSeated(s, socket)
  {
    AdmittedHolds(s, socket, s.joins[socket].name, 0);
    SeatedNow(Step(s, JoinResumed(socket, 0)), socket);
    SeatedAfter(s, JoinResumed(socket, 0), socket);
  }

  lemma CheckedCanBeSeated(s: State, socket: nat)
    requires Inv(s) && socket in s.joins && s.joins[socket].Checking? && !IsFull(s.room)
    ensures CanBeSeated(CheckJoin(s, socket, true, 0), socket)
  {
    var t := CheckJoin(s, socket, true, 0);
    match s.joins[socket].token
    case None =>
      AdmittedHolds(s, socket, s.joins[socket].name, 0);
      SeatedNow(t, socket);
    case Some(token) =>
      var i := ByReconnectToken(s.room.users, token);
      if i >= 0 {
        ReclaimedHolds(s, i, socket, token, 0);
        SeatedNow(t, socket);
      } else {
        ResumedIsSeated(t, socket);
      }
  }

  /** A join that finds room gets its slot. */
  lemma SeatedWithRoom(s: State, socket: nat)
    requires Inv(s) && socket in s.joins && !IsFull(s.room)
    ensures CanBeSeated(s, socket)
  {
    if s.joins[socket].Adding? {
      ResumedIsSeated(s, socket);
    } else {
      CheckedCanBeSeated(s, socket);
      SeatedAfter(s, JoinChecked(socket, true, 0), socket);
    }
  }

  /** The first member of a full room leaves... */
  lemma FirstLeaves(s: State)
    requires Inv(s) && s.live && |s.room.users| == 2 && s.room.users[0].connected
    ensures s.room.users[0].socket.Some?
    ensures var t := Step(s, Disconnected(s.room.users[0].socket.value));
            Inv(t) && t.live && |t.room.users| == 2 && !t.room.users[0].connected && t.joins == s.joins
  {
    assert Seated(s.room.users[0], s.joins.Keys, s.reclaimed, s.next);
    var socket := s.room.users[0].socket.value;
    assert BySocket(s.room.users, socket) == 0;
    DisconnectKeeps(s, socket);
  }

  lemma ExpiryRemoves(s: State, timer: nat)
    requires timer in s.room.armed
    requires var i := ById(s.room.users, s.room.armed[timer]);
             i >= 0 && !s.room.users[i].connected && s.room.users[i].socket.None?
    requires Without(s.room.users, s.room.armed[timer]) != []
    ensures var t := ExpireGrace(s, timer);
            t.live == s.live && t.joins == s.joins && t.room.users == Without(s.room.users, s.room.armed[timer])
  {
  }

  /** ...and is removed when the grace period is over. */
  lemma FirstIsRemoved(s: State)
    requires Inv(s) && s.live && |s.room.users| == 2 && !s.room.users[0].connected
    ensures s.room.users[0].id in s.room.graceTimers
    ensures var t := ExpireGrace(s, s.room.graceTimers[s.room.users[0].id]);
            Inv(t) && t.live && |t.room.users| == 1 && t.joins == s.joins
  {
    assert s.room.users[0].id in s.room.graceTimers;
    var timer := s.room.graceTimers[s.room.users[0].id];
    ExpiryFindsItsUser(s, timer);
    RemovedUsers(s.room.users, 0);
    ExpiryRemoves(s, timer);
    ExpireGraceKeeps(s, timer);
  }

  lemma SeatedOnceRemoved(s: State, socket: nat)
    requires Inv(s) && s.live && |s.room.users| == 2 && !s.room.users[0].connected && socket in s.joins
    ensures CanBeSeated(s, socket)
  {
    FirstIsRemoved(s);
    ExpiryIsAStep(s, s.room.graceTimers[s.room.users[0].id]);
    SeatedOnceThereIsRoom(s, GraceExpired(s.room.graceTimers[s.room.users[0].id]), socket);
  }

  lemma ExpiryIsAStep(s: State, timer: nat)
    ensures Step(s, GraceExpired(timer)) == ExpireGrace(s, timer)
  {
  }

  lemma SeatedOnceThereIsRoom(s: State, e: Event, socket: nat)
    requires Inv(Step(s, e)) && !IsFull(Step(s, e).room) && socket in Step(s, e).joins && !e.JoinRequested?
    ensures CanBeSeated(s, socket)
  {
    SeatedWithRoom(Step(s, e), socket);
    SeatedAfter(s, e, socket);
  }

  lemma JoinCanBeSeated(s: State, socket: nat)
    requires Inv(s) && s.live && socket in s.joins
    ensures CanBeSeated(s, socket)
  {
    if !IsFull(s.room) {
      SeatedWithRoom(s, socket);
    } else if s.room.users[0].connected {
      FirstLeaves(s);
      var e := Disconnected(s.room.users[0].socket.value);
      SeatedOnceRemoved(Step(s, e), socket);
      SeatedAfter(s, e, socket);
    } else {
      SeatedOnceRemoved(s, socket);
    }
  }

  lemma DisconnectFrees(s: State, socket: nat)
    requires Distinct(s.room.users)
    ensures NotIn(LoseSocket(s, socket).room.users, socket)
  {
    var us, i := s.room.users, BySocket(s.room.users, socket);
    if i >= 0 {
      assert forall k :: 0 <= k < |us| && k != i ==> us[k].socket != us[i].socket;
    }
  }

  lemma DisconnectLeavesOut(s: State, socket: nat)
    requires Inv(s) && s.live
    ensures var t := Step(s, Disconnected(socket));
            Inv(t) && t.live && t.joins == s.joins && NotIn(t.room.users, socket)
  {
    DisconnectKeeps(s, socket);
    DisconnectFrees(s, socket);
    DisconnectEffect(s, socket);
  }

  /** A socket that disconnects from a live room is out of it for good exactly when it had no
      join in flight: otherwise, whatever that join awaits and even if the room is full, the
      run can go on so that the gone socket is given a slot. */
  lemma GoneExactlyWithoutAJoin(mode: Mode, submissionLimit: int, testCaseLimit: int, now: int, events: seq<Event>,
                                socket: nat)
    requires Run(Fresh(mode, submissionLimit, testCaseLimit, now), events).live
    ensures var s := Run(Fresh(mode, submissionLimit, testCaseLimit, now), events);
            CanBeSeated(Step(s, Disconnected(socket)), socket) <==> socket in s.joins
  {
    EveryRun(mode, submissionLimit, testCaseLimit, now, events);
    var s := Run(Fresh(mode, submissionLimit, testCaseLimit, now), events);
    var t := Step(s, Disconnected(socket));
    DisconnectLeavesOut(s, socket);
    if socket in s.joins {
      JoinCanBeSeated(t, socket);
    } else {
      forall later | Silent(later, socket) ensures !Holds(Run(t, later), socket) {
        RunLeavesOut(t, later, socket);
        HoldsASeat(Run(t, later), socket);
      }
    }
  }

  // ---------------------------------------------------------------------------------------
  // A seat is kept until its socket disconnects
  // ---------------------------------------------------------------------------------------

  lemma SeatHeld(s: State, k: nat, socket: nat)
    requires k < |s.room.users| && IsSeat(s.room.users[k], socket)
    ensures Holds(s, socket)
  {
    HoldsASeat(s, socket);
  }

  lemma AdmitKeepsSeat(s: State, other: nat, name: string, now: int, socket: nat)
    requires Holds(s, socket)
    ensures Admit(s, other, name, now).live == s.live && Holds(Admit(s, other, name, now), socket)
  {
    var k := BySocket(s.room.users, socket);
    SeatHeld(Admit(s, other, name, now), k, socket);
  }

  lemma ReclaimKeepsSeat(s: State, i: nat, other: nat, token: nat, now: int, socket: nat)
    requires Slots(s) && Holds(s, socket) && i == ByReconnectToken(s.room.users, token)
    ensures Reclaim(s, i, other, token, now).live == s.live && Holds(Reclaim(s, i, other, token, now), socket)
  {
    var k := BySocket(s.room.users, socket);
    ReclaimEffect(s, i, other, token, now);
    SeatHeld(Reclaim(s, i, other, token, now), k, socket);
  }

  lemma JoiningKeepsSeat(s: State, e: Event, socket: nat)
    requires Slots(s) && Holds(s, socket) && (e.JoinRequested? || e.JoinChecked? || e.JoinResumed?)
    ensures Step(s, e).live == s.live && Holds(Step(s, e), socket)
  {
    match e
    case JoinRequested(_, _, _) =>
    case JoinChecked(other, allowed, now) =>
      if other in s.joins && s.joins[other].Checking? && allowed {
        match s.joins[other].token
        case None => AdmitKeepsSeat(s, other, s.joins[other].name, now, socket);
        case Some(token) =>
          var i := ByReconnectToken(s.room.users, token);
          if i >= 0 {
            ReclaimKeepsSeat(s, i, other, token, now, socket);
          }
      }
    case JoinResumed(other, now) =>
      if other in s.joins && s.joins[other].Adding? {
        AdmitKeepsSeat(s, other, s.joins[other].name, now, socket);
      }
  }

  lemma DisconnectKeepsSeat(s: State, other: nat, socket: nat)
    requires Holds(s, socket) && other != socket
    ensures Disconnect(s, other).live == s.live && Holds(Disconnect(s, other), socket)
  {
    var k, i := BySocket(s.room.users, socket), BySocket(s.room.users, other);
    DisconnectEffect(s, other);
    assert i >= 0 ==> i != k;
    SeatHeld(Disconnect(s, other), k, socket);
  }

  lemma ExpiryKeepsSeat(s: State, timer: nat, socket: nat)
    requires Inv(s) && s.live && Holds(s, socket) && timer in s.room.armed
    ensures ExpireGrace(s, timer).live && Holds(ExpireGrace(s, timer), socket)
  {
    var us, id := s.room.users, s.room.armed[timer];
    var k := BySocket(us, socket);
    ExpiryFindsItsUser(s, timer);
    assert us[k].id != id by {
      assert k != ById(us, id);
    }
    var left := Without(us, id);
    assert us[k] in left;
    ExpiryRemoves(s, timer);
    var j :| 0 <= j < |left| && left[j] == us[k];
    SeatHeld(ExpireGrace(s, timer), j, socket);
  }

  lemma SweepKeepsSeat(s: State, socket: nat)
    requires s.live && Holds(s, socket)
    ensures Sweep(s) == s
  {
    assert s.room.users[BySocket(s.room.users, socket)] in s.room.users;
  }

  /** A seat in a live room outlasts every event but its own socket's disconnection, and the
      room with it. */
  lemma StepKeepsSeat(s: State, e: Event, socket: nat)
    requires Inv(s) && s.live && Holds(s, socket) && e != Disconnected(socket)
    ensures Step(s, e).live && Holds(Step(s, e), socket)
  {
    match e
    case JoinRequested(_, _, _) => JoiningKeepsSeat(s, e, socket);
    case JoinChecked(_, _, _) => JoiningKeepsSeat(s, e, socket);
    case JoinResumed(_, _) => JoiningKeepsSeat(s, e, socket);
    case Disconnected(other) => DisconnectKeepsSeat(s, other, socket);
    case GraceExpired(timer) => if timer in s.room.armed { ExpiryKeepsSeat(s, timer, socket); }
    case Swept => SweepKeepsSeat(s, socket);
    case _ => OthersStay(s, e);
  }

  lemma {:induction false} RunKeepsSeat(s: State, later: seq<Event>, socket: nat)
    requires Inv(s) && s.live && Holds(s, socket) && Disconnected(socket) !in later
    ensures Run(s, later).live && Holds(Run(s, later), socket)
    decreases |later|
  {
    if later != [] {
      StepKeepsSeat(s, later[0], socket);
      StepKeeps(s, later[0]);
      RunKeepsSeat(Step(s, later[0]), later[1..], socket);
    }
  }

  /** In every run, whoever holds a seat of a live room keeps it, and keeps the room from every
      sweep, until the socket disconnects. A socket that is gone already never does. */
  lemma SeatedUntilItDisconnects(mode: Mode, submissionLimit: int, testCaseLimit: int, now: int, events: seq<Event>,
                                 socket: nat, later: seq<Event>)
    requires var s := Run(Fresh(mode, submissionLimit, testCaseLimit, now), events); s.live && Holds(s, socket)
    requires Disconnected(socket) !in later
    ensures var t := Run(Run(Fresh(mode, submissionLimit, testCaseLimit, now), events), later);
            t.live && Holds(t, socket) && Step(t, Swept) == t
  {
    EveryRun(mode, submissionLimit, testCaseLimit, now, events);
    RunKeepsSeat(Run(Fresh(mode, submissionLimit, testCaseLimit, now), events), later, socket);
    SweepKeepsSeat(Run(Run(Fresh(mode, submissionLimit, testCaseLimit, now), events), later), socket);
  }

  /** Such a run: a socket that disconnects while its join awaits the rate limit is seated
      afterwards. Whatever happens later, as it cannot disconnect again, it keeps the seat, has
      no grace timer, and the room survives every idle sweep. */
  lemma JoinOutlivesItsSocket(mode: Mode, now: int, later: seq<Event>)
    requires Disconnected(0) !in later
    ensures var s := Step(Step(Step(Fresh(mode, 20, 10, now), JoinRequested(0, "Ada", None)), Disconnected(0)),
                          JoinChecked(0, true, now));
            var t := Run(s, later);
            && s.live && |s.room.users| == 1 && s.room.users[0].connected && s.room.armed == map[]
            && t.live && Holds(t, 0) && Step(t, Swept) == t
  {
    var created := Fresh(mode, 20, 10, now);
    var s := Step(Step(Step(created, JoinRequested(0, "Ada", None)), Disconnected(0)), JoinChecked(0, true, now));
    EveryRun(mode, 20, 10, now, []);
    StepKeeps(created, JoinRequested(0, "Ada", None));
    StepKeeps(Step(created, JoinRequested(0, "Ada", None)), Disconnected(0));
    StepKeeps(Step(Step(created, JoinRequested(0, "Ada", None)), Disconnected(0)), JoinChecked(0, true, now));
    SeatHeld(s, 0, 0);
    RunKeepsSeat(s, later, 0);
    SweepKeepsSeat(Run(s, later), 0);
  }
}
