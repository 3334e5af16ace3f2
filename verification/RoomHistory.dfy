/** What holds of one room in every run of its protocol, and over its whole history. */
module RoomHistory {
  import opened Common
  import opened RoomModel
  import opened RoomProtocol
  import opened RoomSlots

  /** At most two members despite the awaits in a join; being connected is having a socket;
      and in a live room a grace timer runs for each disconnected member and for nobody else,
      under the handle the room knows. Custom test cases never exceed their limit. */
  lemma MembersAndGraceTimers(mode: Mode, submissionLimit: int, testCaseLimit: int, now: int, events: seq<Event>)
    ensures var r := Run(Fresh(mode, submissionLimit, testCaseLimit, now), events).room;
            && |r.users| <= MAX_USERS
            && (forall i :: 0 <= i < |r.users| ==> r.users[i].connected == r.users[i].socket.Some?)
            && |r.customTestCases| <= Max(0, r.customTestCaseLimit)
    ensures var s := Run(Fresh(mode, submissionLimit, testCaseLimit, now), events);
            s.live ==>
              && (forall id :: id in s.room.graceTimers <==>
                    exists i :: 0 <= i < |s.room.users| && s.room.users[i].id == id && !s.room.users[i].connected)
              && (forall t, id :: t in s.room.armed && s.room.armed[t] == id
                                  <==> id in s.room.graceTimers && s.room.graceTimers[id] == t)
    ensures var s := Run(Fresh(mode, submissionLimit, testCaseLimit, now), events);
            !s.live ==> s.room.armed == map[]
  {
    EveryRun(mode, submissionLimit, testCaseLimit, now, events);
    var s := Run(Fresh(mode, submissionLimit, testCaseLimit, now), events);
    var us := s.room.users;
    forall i | 0 <= i < |us| ensures us[i].connected == us[i].socket.Some? {
      assert Seated(us[i], s.joins.Keys, s.reclaimed, s.next);
    }
    if s.live {
      forall id | id in s.room.graceTimers ensures exists i :: 0 <= i < |us| && us[i].id == id && !us[i].connected {
        assert HasId(us, id);
      }
    }
  }

  /** When a grace timer fires, its user is still there, disconnected and without a socket: the
      guard at the top of the callback never returns early. */
  lemma ExpiryGuardNeverTaken(mode: Mode, submissionLimit: int, testCaseLimit: int, now: int, events: seq<Event>,
                              timer: nat)
    requires timer in Run(Fresh(mode, submissionLimit, testCaseLimit, now), events).room.armed
    ensures var s := Run(Fresh(mode, submissionLimit, testCaseLimit, now), events);
            var i := ById(s.room.users, s.room.armed[timer]);
            && s.live && i >= 0 && !s.room.users[i].connected && s.room.users[i].socket.None?
            && ById(Step(s, GraceExpired(timer)).room.users, s.room.armed[timer]) < 0
  {
    EveryRun(mode, submissionLimit, testCaseLimit, now, events);
    var s := Run(Fresh(mode, submissionLimit, testCaseLimit, now), events);
    ExpiryFindsItsUser(s, timer);
  }

  /** A token value reclaims a slot at most once in the whole run, and never while it is the
      current token of any member. */
  lemma TokenReclaimsOnce(mode: Mode, submissionLimit: int, testCaseLimit: int, now: int, events: seq<Event>,
                          token: nat)
    ensures var s := Run(Fresh(mode, submissionLimit, testCaseLimit, now), events);
            && s.reclaimed[token] <= 1
            && forall i :: 0 <= i < |s.room.users| && s.room.users[i].token == token ==> s.reclaimed[token] == 0
  {
    EveryRun(mode, submissionLimit, testCaseLimit, now, events);
    var s := Run(Fresh(mode, submissionLimit, testCaseLimit, now), events);
    forall i | 0 <= i < |s.room.users| ensures s.room.users[i].token !in s.reclaimed {
      assert Seated(s.room.users[i], s.joins.Keys, s.reclaimed, s.next);
    }
  }

  lemma RequestHintNext(s: State, socket: nat, cooledDown: bool)
    ensures RequestHint(s, socket, cooledDown).next >= s.next
  {
  }

  lemma DisconnectNext(s: State, socket: nat)
    ensures Disconnect(s, socket).next >= s.next
  {
    assert RequesterGone(LoseSocket(s, socket)).next == LoseSocket(s, socket).next;
  }

  lemma ExpireGraceNext(s: State, timer: nat)
    ensures ExpireGrace(s, timer).next == s.next
  {
  }

  lemma NextGrows(s: State, e: Event)
    ensures Step(s, e).next >= s.next
  {
    match e
    case HintRequested(socket, cooledDown) => RequestHintNext(s, socket, cooledDown);
    case Disconnected(socket) => DisconnectNext(s, socket);
    case GraceExpired(timer) => ExpireGraceNext(s, timer);
    case _ =>
  }

  lemma {:induction false} RunNextGrows(s: State, events: seq<Event>)
    ensures Run(s, events).next >= s.next
    decreases |events|
  {
    if events != [] {
      NextGrows(s, events[0]);
      RunNextGrows(Step(s, events[0]), events[1..]);
    }
  }

  lemma {:induction false} RunSplits(s: State, events: seq<Event>, k: nat)
    requires k <= |events|
    ensures Run(s, events) == Run(Run(s, events[..k]), events[k..])
    decreases k
  {
    if k == 0 {
      assert events[0..] == events;
    } else {
      assert events[..k][1..] == events[1..][..k - 1] && events[1..][k - 1..] == events[k..];
      RunSplits(Step(s, events[0]), events[1..], k - 1);
    }
  }

  ghost predicate NobodyHas(us: seq<User>, token: nat) {
    forall j :: 0 <= j < |us| ==> us[j].token != token
  }

  function MembersAt(start: State, events: seq<Event>, k: nat): seq<User>
    requires k <= |events|
  {
    Run(start, events[..k]).room.users
  }

  /** No member had the token at any moment of the run from `start`. */
  ghost predicate NeverHeld(start: State, events: seq<Event>, token: nat) {
    forall k: nat :: k <= |events| ==> NobodyHas(MembersAt(start, events, k), token)
  }

  lemma NewTokenAt(start: State, events: seq<Event>, k: nat)
    requires Inv(start) && k <= |events|
    ensures NobodyHas(MembersAt(start, events, k), Run(start, events).next)
  {
    var p := Run(start, events[..k]);
    RunKeeps(start, events[..k]);
    RunSplits(start, events, k);
    RunNextGrows(p, events[k..]);
    forall j | 0 <= j < |p.room.users| ensures p.room.users[j].token < p.next {
      assert Seated(p.room.users[j], p.joins.Keys, p.reclaimed, p.next);
    }
  }

  lemma NewTokenIsNew(start: State, events: seq<Event>)
    requires Inv(start)
    ensures NeverHeld(start, events, Run(start, events).next)
  {
    forall k: nat | k <= |events| ensures NobodyHas(MembersAt(start, events, k), Run(start, events).next) {
      NewTokenAt(start, events, k);
    }
  }

  /** A join with the token of a disconnected member gives that member's slot back: nobody is
      added or moved, id, name and role stay, and the token is replaced by one that no member had
      at any earlier moment of the run. */
  lemma ReconnectKeepsIdentity(mode: Mode, submissionLimit: int, testCaseLimit: int, created: int, events: seq<Event>,
                               socket: nat, name: string, i: nat, now: int)
    requires var s := Run(Fresh(mode, submissionLimit, testCaseLimit, created), events);
             && i < |s.room.users| && !s.room.users[i].connected
             && socket in s.joins && s.joins[socket] == Checking(name, Some(s.room.users[i].token))
    ensures var s := Run(Fresh(mode, submissionLimit, testCaseLimit, created), events);
            var t := Step(s, JoinChecked(socket, true, now));
            && |t.room.users| == |s.room.users|
            && (forall k :: 0 <= k < |s.room.users| ==>
                  && t.room.users[k].id == s.room.users[k].id && t.room.users[k].name == s.room.users[k].name
                  && t.room.users[k].role == s.room.users[k].role
                  && (k != i ==> t.room.users[k] == s.room.users[k]))
            && t.room.users[i].connected && t.room.users[i].socket == Some(socket)
            && t.room.users[i].token != s.room.users[i].token && t.reclaimed[t.room.users[i].token] == 0
            && t.room.users[i].id !in t.room.graceTimers
    ensures var start := Fresh(mode, submissionLimit, testCaseLimit, created);
            NeverHeld(start, events, Step(Run(start, events), JoinChecked(socket, true, now)).room.users[i].token)
  {
    EveryRun(mode, submissionLimit, testCaseLimit, created, events);
    var s := Run(Fresh(mode, submissionLimit, testCaseLimit, created), events);
    var token := s.room.users[i].token;
    assert ByReconnectToken(s.room.users, token) == i;
    ReclaimEffect(s, i, socket, token, now);
    ReclaimSlots(s, i, socket, token, now);
    assert Seated(s.room.users[i], s.joins.Keys, s.reclaimed, s.next);
    var t := Reclaim(s, i, socket, token, now);
    assert Seated(t.room.users[i], t.joins.Keys, t.reclaimed, t.next);
    NewTokenIsNew(Fresh(mode, submissionLimit, testCaseLimit, created), events);
  }

  /** Over the whole history of a live room exactly one user is ever made interviewer, once
      somebody has joined and in interview mode only. As long as that user has a slot it is the
      first one, and everybody else is a candidate; in other modes all are peers. A room that has
      had a member never becomes empty without being destroyed, which is why. */
  lemma OneInterviewerEver(mode: Mode, submissionLimit: int, testCaseLimit: int, now: int, events: seq<Event>)
    ensures var s := Run(Fresh(mode, submissionLimit, testCaseLimit, now), events);
            s.live ==>
              && (s.everJoined <==> s.room.users != [])
              && |s.interviewers| == (if s.room.mode == Interview && s.everJoined then 1 else 0)
              && (s.room.mode != Interview ==> s.interviewers == [])
              && (forall i :: 0 <= i < |s.room.users| ==> s.room.users[i].role == RoleOf(s, s.room.users[i]))
              && (forall i :: 0 < i < |s.room.users| ==> s.room.users[i].role != Interviewer)
  {
    EveryRun(mode, submissionLimit, testCaseLimit, now, events);
  }

  /** Every accepted hint request is resolved exactly once or is the pending one, and is never
      accepted twice. While one is pending the room is live, its requester is a connected
      member, and exactly one consent timer runs: the one started for that request. */
  lemma ConsentInEveryRun(mode: Mode, submissionLimit: int, testCaseLimit: int, now: int, events: seq<Event>)
    ensures var s := Run(Fresh(mode, submissionLimit, testCaseLimit, now), events);
            && (forall q :: s.accepted[q] <= 1)
            && (forall q :: s.resolved[q] == if s.room.pending.Some? && s.room.pending.value.request == q
                                             then 0 else s.accepted[q])
            && (s.room.pending.Some? ==>
                  && s.live && s.accepted[s.room.pending.value.request] == 1
                  && (exists i :: HeldBy(s.room.users, i, s.room.pending.value.requestedBy))
                  && s.consentTimer.Some?
                  && s.consentArmed == map[s.consentTimer.value := s.room.pending.value.request])
  {
    EveryRun(mode, submissionLimit, testCaseLimit, now, events);
    var s := Run(Fresh(mode, submissionLimit, testCaseLimit, now), events);
    forall q ensures s.accepted[q] <= 1
      ensures s.resolved[q] == if s.room.pending.Some? && s.room.pending.value.request == q then 0 else s.accepted[q]
    {
      if q in s.accepted { assert s.accepted[q] == 1; }
      var waiting := if s.room.pending.Some? then multiset{s.room.pending.value.request} else multiset{};
      assert s.accepted[q] == s.resolved[q] + waiting[q];
    }
    if s.room.pending.Some? {
      assert s.consentArmed.Keys == {s.consentTimer.value};
    }
  }

  /** A consent timer that fires resolves no request but the one it was started for; one left
      over by a problem switch resolves nothing at all. */
  lemma TimeoutDeniesOnlyItsOwn(mode: Mode, submissionLimit: int, testCaseLimit: int, now: int, events: seq<Event>,
                                timer: nat)
    requires timer in Run(Fresh(mode, submissionLimit, testCaseLimit, now), events).consentArmed
    ensures var s := Run(Fresh(mode, submissionLimit, testCaseLimit, now), events);
            var t := Step(s, ConsentExpired(timer));
            && t.room == s.room.(pending := None)
            && t.resolved == s.resolved + (if s.room.pending.Some? then multiset{s.consentArmed[timer]} else multiset{})
            && (s.room.pending.Some? ==> s.room.pending.value.request == s.consentArmed[timer])
  {
    ConsentInEveryRun(mode, submissionLimit, testCaseLimit, now, events);
  }
}
