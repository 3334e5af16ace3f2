/** What each event makes of a room, in every state that a run reaches: who is let in and with
    what, who leaves, which answer resolves a hint request, and what each event leaves alone. */
module RoomEffects {
  import opened Common
  import opened RoomModel
  import opened RoomProtocol
  import opened RoomSlots

  // ---------------------------------------------------------------------------------------
  // Joining
  // ---------------------------------------------------------------------------------------

  ghost predicate HasSeat(us: seq<User>, socket: nat) {
    exists i :: 0 <= i < |us| && us[i].socket == Some(socket)
  }

  /** A socket that neither has a seat nor asks for one. */
  ghost predicate Outside(s: State, socket: nat) {
    socket !in s.joins && !HasSeat(s.room.users, socket)
  }

  /** Nobody who is disconnected holds the token. */
  ghost predicate Unknown(us: seq<User>, token: nat) {
    forall i :: 0 <= i < |us| && !us[i].connected ==> us[i].token != token
  }

  /** A join as far as the rate limit's answer. */
  function Checked(s: State, socket: nat, name: string, token: Option<nat>, allowed: bool, now: int): State {
    Step(Step(s, JoinRequested(socket, name, token)), JoinChecked(socket, allowed, now))
  }

  /** A join from beginning to end. */
  function Joined(s: State, socket: nat, name: string, token: Option<nat>, allowed: bool, now: int): State {
    Step(Checked(s, socket, name, token, allowed, now), JoinResumed(socket, now))
  }

  lemma SeatIsFound(s: State, socket: nat)
    requires Slots(s)
    ensures BySocket(s.room.users, socket) >= 0 <==> HasSeat(s.room.users, socket)
  {
    var us := s.room.users;
    if HasSeat(us, socket) {
      var i :| 0 <= i < |us| && us[i].socket == Some(socket);
      assert Seated(us[i], s.joins.Keys, s.reclaimed, s.next);
    }
  }

  /** A request is taken up exactly from a socket outside a live room, and remembers what was
      asked; any other changes nothing. */
  lemma JoinIsTakenUp(s: State, socket: nat, name: string, token: Option<nat>)
    requires Reachable(s)
    ensures Step(s, JoinRequested(socket, name, token))
            == if s.live && Outside(s, socket) then s.(joins := s.joins[socket := Checking(name, token)]) else s
  {
    ReachableKeeps(s);
    SeatIsFound(s, socket);
  }

  /** A join that the rate limit denies leaves the room as it was. */
  lemma DeniedJoinLeavesNothing(s: State, socket: nat, name: string, token: Option<nat>, now: int)
    requires Reachable(s) && s.live && Outside(s, socket)
    ensures Joined(s, socket, name, token, false, now) == s
  {
    JoinIsTakenUp(s, socket, name, token);
    assert s.joins[socket := Checking(name, token)] - {socket} == s.joins;
  }

  lemma TokenIsFound(s: State, i: nat)
    requires Slots(s) && i < |s.room.users| && !s.room.users[i].connected
    ensures ByReconnectToken(s.room.users, s.room.users[i].token) == i
  {
  }

  /** Whoever joins with the token of a disconnected member gets that member's place back: id,
      name and role stay, only connection, socket and token are new, the grace timer is gone, and
      nobody else notices. */
  lemma TokenGivesTheSeatBack(s: State, socket: nat, name: string, i: nat, now: int)
    requires Reachable(s) && s.live && Outside(s, socket) && i < |s.room.users| && !s.room.users[i].connected
    ensures var u := s.room.users[i];
            var t := Checked(s, socket, name, Some(u.token), true, now);
            && t == Joined(s, socket, name, Some(u.token), true, now)
            && t.live && t.joins == s.joins && t.interviewers == s.interviewers
            && |t.room.users| == |s.room.users| && t.room.users[i].token != u.token
            && t.room.users[i] == u.(connected := true, socket := Some(socket), token := t.room.users[i].token)
            && (forall k :: 0 <= k < |s.room.users| && k != i ==> t.room.users[k] == s.room.users[k])
            && t.room == s.room.(users := t.room.users, graceTimers := s.room.graceTimers - {u.id},
                                 armed := t.room.armed, lastActivityAt := now)
            && t.room.armed == map k | k in s.room.armed && s.room.armed[k] != u.id :: s.room.armed[k]
  {
    ReachableKeeps(s);
    var token := s.room.users[i].token;
    CheckedIsReclaim(s, socket, name, i, now);
    Reclaimed(s, s.(joins := s.joins[socket := Checking(name, Some(token))]), socket, i, token, now);
  }

  lemma CheckedIsReclaim(s: State, socket: nat, name: string, i: nat, now: int)
    requires Reachable(s) && s.live && Outside(s, socket) && i < |s.room.users| && !s.room.users[i].connected
    ensures var token := s.room.users[i].token;
            var asked := s.(joins := s.joins[socket := Checking(name, Some(token))]);
            var t := Reclaim(asked, i, socket, token, now);
            && Checked(s, socket, name, Some(token), true, now) == t
            && Joined(s, socket, name, Some(token), true, now) == t && t.joins == s.joins
  {
    ReachableKeeps(s);
    JoinIsTakenUp(s, socket, name, Some(s.room.users[i].token));
    TokenIsFound(s, i);
    assert s.joins[socket := Checking(name, Some(s.room.users[i].token))] - {socket} == s.joins;
  }

  lemma Reclaimed(s: State, asked: State, socket: nat, i: nat, token: nat, now: int)
    requires Inv(s) && s.live && i < |s.room.users| && !s.room.users[i].connected && token == s.room.users[i].token
    requires asked.room == s.room && asked.next == s.next && asked.live && asked.interviewers == s.interviewers
    ensures var t := Reclaim(asked, i, socket, token, now);
            var u := s.room.users[i];
            && t.room.users == s.room.users[i := u.(connected := true, socket := Some(socket), token := s.next)]
            && s.next != u.token && t.live && t.interviewers == s.interviewers
            && t.room == s.room.(users := t.room.users, graceTimers := s.room.graceTimers - {u.id},
                                 armed := t.room.armed, lastActivityAt := now)
            && t.room.armed == map k | k in s.room.armed && s.room.armed[k] != u.id :: s.room.armed[k]
  {
    var u := s.room.users[i];
    assert Seated(u, s.joins.Keys, s.reclaimed, s.next);
    FoundById(s.room.users, i);
    assert u.id in s.room.graceTimers;
  }

  /** Any other join that the rate limit lets through ends in a new last member with a role by the
      mode and an id and a token that nobody has, or, if the room is full, in nothing at all. */
  lemma OtherJoinsAreAdmitted(s: State, socket: nat, name: string, token: Option<nat>, now: int)
    requires Reachable(s) && s.live && Outside(s, socket)
    requires token.Some? ==> Unknown(s.room.users, token.value)
    ensures var t := Joined(s, socket, name, token, true, now);
            && t.live && t.joins == s.joins
            && (|s.room.users| == 2 ==> t == s)
            && (|s.room.users| < 2 ==>
                  && |t.room.users| == |s.room.users| + 1 && t.room.users[..|s.room.users|] == s.room.users
                  && t.room == s.room.(users := t.room.users, lastActivityAt := now)
                  && IsNewMember(s, t.room.users[|s.room.users|], socket, name))
    ensures token.None? ==> Joined(s, socket, name, token, true, now) == Checked(s, socket, name, token, true, now)
  {
    ReachableKeeps(s);
    JoinIsAdmission(s, socket, name, token, now);
    Newcomer(s, socket, name);
  }

  lemma JoinIsAdmission(s: State, socket: nat, name: string, token: Option<nat>, now: int)
    requires Reachable(s) && s.live && Outside(s, socket)
    requires token.Some? ==> Unknown(s.room.users, token.value)
    ensures Joined(s, socket, name, token, true, now) == Admit(s, socket, name, now)
    ensures token.None? ==> Checked(s, socket, name, token, true, now) == Admit(s, socket, name, now)
  {
    JoinIsTakenUp(s, socket, name, token);
    AdmitForgetsTheJoin(s, socket, name, now, Checking(name, token));
    AdmitForgetsTheJoin(s, socket, name, now, Adding(name));
    if token.Some? {
      assert ByReconnectToken(s.room.users, token.value) < 0;
      assert s.joins[socket := Checking(name, token)][socket := Adding(name)] == s.joins[socket := Adding(name)];
    }
  }

  lemma AdmitForgetsTheJoin(s: State, socket: nat, name: string, now: int, pc: JoinPc)
    requires socket !in s.joins
    ensures Admit(s.(joins := s.joins[socket := pc]), socket, name, now) == Admit(s, socket, name, now)
    ensures Admit(s, socket, name, now).joins == s.joins && socket !in Admit(s, socket, name, now).joins
  {
    assert s.joins[socket := pc] - {socket} == s.joins;
  }

  /** An answer that no join is waiting for changes nothing. */
  lemma OutOfTurn(s: State, socket: nat, allowed: bool, now: int)
    ensures socket !in s.joins || s.joins[socket].Adding? ==> Step(s, JoinChecked(socket, allowed, now)) == s
    ensures socket !in s.joins || s.joins[socket].Checking? ==> Step(s, JoinResumed(socket, now)) == s
  {
  }

  ghost predicate IsNewMember(s: State, u: User, socket: nat, name: string) {
    && u == User(u.id, name, u.role, true, u.token, Some(socket))
    && u.role == (if s.room.mode != Interview then Peer else if s.room.users == [] then Interviewer else Candidate)
    && (forall i :: 0 <= i < |s.room.users| ==> s.room.users[i].id != u.id && s.room.users[i].token != u.token)
  }

  lemma Newcomer(s: State, socket: nat, name: string)
    requires Slots(s)
    ensures IsNewMember(s, User(s.next, name, DetermineRole(s.room), true, s.next + 1, Some(socket)), socket, name)
  {
    forall i | 0 <= i < |s.room.users| ensures s.room.users[i].id < s.next && s.room.users[i].token < s.next {
      assert Seated(s.room.users[i], s.joins.Keys, s.reclaimed, s.next);
    }
  }

  // ---------------------------------------------------------------------------------------
  // Leaving
  // ---------------------------------------------------------------------------------------

  /** A member who loses the connection keeps the place, the token and everything else, has a
      grace timer from then on, and the own hint request, if one is pending, is withdrawn. A
      socket without a seat changes nothing. */
  lemma DisconnectKeepsTheSeat(s: State, socket: nat, i: nat)
    requires Reachable(s) && s.live && i < |s.room.users| && s.room.users[i].socket == Some(socket)
    ensures var t := Step(s, Disconnected(socket));
            var u := s.room.users[i];
            var own := s.room.pending.Some? && s.room.pending.value.requestedBy == u.id;
            && t.room.users == s.room.users[i := u.(connected := false, socket := None)]
            && u.id in t.room.graceTimers && u.id !in s.room.graceTimers
            && (forall id :: id in s.room.graceTimers ==>
                  id in t.room.graceTimers && t.room.graceTimers[id] == s.room.graceTimers[id])
            && t.room == s.room.(users := t.room.users, graceTimers := t.room.graceTimers, armed := t.room.armed,
                                 pending := if own then None else s.room.pending)
            && t.resolved == (if own then s.resolved + multiset{s.room.pending.value.request} else s.resolved)
            && t.accepted == s.accepted && t.live && t.joins == s.joins
            && (own ==> t.consentArmed == map[])
            && (!own ==> t.consentArmed == s.consentArmed && t.consentTimer == s.consentTimer)
  {
    ReachableKeeps(s);
    SocketLost(s, socket, i);
    WithdrawnExactly(s, LoseSocket(s, socket), i);
  }

  lemma SocketLost(s: State, socket: nat, i: nat)
    requires Slots(s) && Timers(s) && i < |s.room.users| && s.room.users[i].socket == Some(socket)
    ensures var t := LoseSocket(s, socket);
            var u := s.room.users[i];
            && u.connected && u.id !in s.room.graceTimers
            && t == s.(room := t.room, next := s.next + 1)
            && t.room == s.room.(users := s.room.users[i := u.(connected := false, socket := None)],
                                 graceTimers := s.room.graceTimers[u.id := s.next], armed := t.room.armed)
  {
    assert Seated(s.room.users[i], s.joins.Keys, s.reclaimed, s.next);
    assert BySocket(s.room.users, socket) == i;
  }

  lemma WithdrawnExactly(s: State, t: State, i: nat)
    requires Slots(s) && Consent(s) && i < |s.room.users| && s.room.users[i].connected
    requires t == s.(room := t.room, next := s.next + 1) && t.room.pending == s.room.pending
    requires t.room.users == s.room.users[i := s.room.users[i].(connected := false, socket := None)]
    ensures var own := s.room.pending.Some? && s.room.pending.value.requestedBy == s.room.users[i].id;
            var left := RequesterGone(t);
            && (!own ==> left == t)
            && (own ==> left == t.(room := t.room.(pending := None), consentTimer := None, consentArmed := map[],
                                   resolved := s.resolved + multiset{s.room.pending.value.request}))
  {
    if s.room.pending.Some? {
      var k :| HeldBy(s.room.users, k, s.room.pending.value.requestedBy);
      StaysFound(s.room.users, i, s.room.users[i].(connected := false, socket := None), k);
      assert s.consentArmed - {s.consentTimer.value} == map[];
    }
  }

  lemma StrangersLeaveNothing(s: State, socket: nat)
    requires Reachable(s) && (!s.live || !HasSeat(s.room.users, socket))
    ensures Step(s, Disconnected(socket)) == s
  {
    ReachableKeeps(s);
    SeatIsFound(s, socket);
    if s.live && s.room.pending.Some? {
      var k :| HeldBy(s.room.users, k, s.room.pending.value.requestedBy);
      FoundById(s.room.users, k);
    }
  }

  /** A grace timer that fires removes its own user, keeps everybody else, and destroys the room
      exactly when nobody is left; one that is not armed does nothing. */
  lemma GraceRemovesItsUser(s: State, timer: nat)
    requires Reachable(s)
    ensures var t := Step(s, GraceExpired(timer));
            && (timer !in s.room.armed ==> t == s)
            && (timer in s.room.armed ==>
                  && (forall u :: u in t.room.users <==> u in s.room.users && u.id != s.room.armed[timer])
                  && |t.room.users| == |s.room.users| - 1
                  && (t.live <==> |s.room.users| > 1)
                  && timer !in t.room.armed && s.room.armed[timer] !in t.room.graceTimers
                  && t.joins == s.joins && t.room.pending == s.room.pending)
  {
    ReachableKeeps(s);
    if timer in s.room.armed {
      ExpiryFindsItsUser(s, timer);
      RemovedUsers(s.room.users, ById(s.room.users, s.room.armed[timer]));
      ExpiredTimersAre(s, timer);
      ExpireGraceTimers(s, timer);
      ExpireGraceRoles(s, timer);
      ExpiryTouches(s, timer);
    }
  }

  /** The sweep destroys exactly a live room in which nobody is connected. */
  lemma SweepDestroysTheAbandoned(s: State)
    requires Reachable(s)
    ensures var t := Step(s, Event.Swept);
            var abandoned := forall i :: 0 <= i < |s.room.users| ==> !s.room.users[i].connected;
            && (t.live <==> s.live && !abandoned)
            && (t.live ==> t == s)
            && t.room.users == s.room.users && t.joins == s.joins
  {
    var us := s.room.users;
    if forall i :: 0 <= i < |us| ==> !us[i].connected {
      forall u | u in us ensures !u.connected {
      }
    } else {
      var i :| 0 <= i < |us| && us[i].connected;
      assert us[i] in us;
    }
  }

  // ---------------------------------------------------------------------------------------
  // Hint requests
  // ---------------------------------------------------------------------------------------

  /** Everything that a request of the member at `i` for a hint is checked against; the last part
      asks for the member who has to consent. */
  ghost predicate MayAsk(s: State, i: nat, cooledDown: bool) {
    && s.live && cooledDown && i < |s.room.users|
    && s.room.mode != Interview && s.room.problem.Some? && s.room.hintsUsed < s.room.hintLimit
    && !s.room.executionInProgress && !s.room.hintStreaming && s.room.pending.None?
    && (forall k :: 0 <= k < |s.room.users| ==> s.room.users[k].connected) && |s.room.users| == 2
  }

  lemma {:induction false} CountsAll(us: seq<User>)
    requires |us| <= 2
    ensures ConnectedCount(us) > 1 <==> |us| == 2 && us[0].connected && us[1].connected
  {
    if |us| == 2 {
      assert us[1..] == [us[1]] && us[1..][1..] == [];
    }
  }

  /** A member's request is accepted exactly when all checks pass and the other member is there to
      consent. It is then pending under an identity never used before, with a timer of its own;
      otherwise nothing changes. */
  lemma RequestAcceptedExactlyWhen(s: State, socket: nat, cooledDown: bool, i: nat)
    requires Reachable(s) && i < |s.room.users| && s.room.users[i].socket == Some(socket)
    ensures var t := Step(s, HintRequested(socket, cooledDown));
            && (!MayAsk(s, i, cooledDown) ==> t == s)
            && (MayAsk(s, i, cooledDown) ==>
                  && t.room.pending.Some? && t.room.pending.value.requestedBy == s.room.users[i].id
                  && var q := t.room.pending.value.request;
                  && q !in s.accepted && t.accepted == s.accepted + multiset{q} && t.resolved == s.resolved
                  && t.consentTimer.Some? && t.consentArmed == map[t.consentTimer.value := q]
                  && t.room == s.room.(pending := t.room.pending) && t.live && t.joins == s.joins)
  {
    ReachableKeeps(s);
    assert MemberBySocket(s, socket) == i;
    CountsAll(s.room.users);
    if MayAsk(s, i, cooledDown) {
      RequestHintEffect(s, socket, cooledDown);
      AcceptedIsNew(s, s.room.users[i].id);
    }
  }

  lemma AcceptedIsNew(s: State, id: nat)
    requires Consent(s) && Accounts(s)
    ensures var t := StartConsentTimer(Asked(s, id), s.next);
            s.next !in s.accepted && t.consentArmed == map[s.next + 1 := s.next]
  {
    if s.consentTimer.Some? {
      assert s.consentArmed - {s.consentTimer.value} == map[];
    }
  }

  /** Nobody without a seat asks for anything. */
  lemma StrangersAskNothing(s: State, socket: nat, cooledDown: bool)
    requires !HasSeat(s.room.users, socket)
    ensures Step(s, HintRequested(socket, cooledDown)) == s && Step(s, HintAnswered(socket)) == s
  {
  }

  /** An answer resolves the pending request exactly when it comes from the other member: then
      the request, and no other, is resolved, nothing is pending and no consent timer runs. In
      particular no one consents to the own request; and whoever else answers changes nothing. */
  lemma OnlyTheOtherMemberAnswers(s: State, socket: nat)
    requires Reachable(s) && s.room.pending.Some?
    ensures var p := s.room.pending.value;
            var t := Step(s, HintAnswered(socket));
            var other := exists i :: 0 <= i < |s.room.users| && s.room.users[i].socket == Some(socket)
                                     && s.room.users[i].id != p.requestedBy;
            && (other ==>
                  && t.resolved == s.resolved + multiset{p.request} && s.resolved[p.request] == 0
                  && t.consentTimer.None? && t.consentArmed == map[]
                  && t == s.(room := s.room.(pending := None), resolved := t.resolved, consentTimer := t.consentTimer,
                             consentArmed := t.consentArmed))
            && (!other ==> t == s)
  {
    ReachableKeeps(s);
    var us, p := s.room.users, s.room.pending.value;
    assert s.consentArmed - {s.consentTimer.value} == map[];
    assert s.accepted[p.request] == 1;
    if i :| 0 <= i < |us| && us[i].socket == Some(socket) {
      assert MemberBySocket(s, socket) == i;
    }
  }

  /** An answer to no request changes nothing, and so does a consent timer that is not armed. */
  lemma NothingToResolve(s: State, socket: nat, timer: nat)
    ensures s.room.pending.None? ==> Step(s, HintAnswered(socket)) == s
    ensures timer !in s.consentArmed ==> Step(s, ConsentExpired(timer)) == s
  {
  }

  // ---------------------------------------------------------------------------------------
  // Problems and test cases
  // ---------------------------------------------------------------------------------------

  /** After a switch nothing of the old problem is left: no hint, used, remembered or asked for,
      and no custom test case; a pending request is resolved. Members, timers, submissions and
      settings stay. */
  lemma SwitchForgetsTheOldProblem(s: State, problem: nat, hintLimit: int, now: int)
    ensures var t := Step(s, ProblemLoaded(problem, hintLimit, now));
            && t.room.problem == Some(problem) && t.room.hintLimit == hintLimit && t.room.lastActivityAt == now
            && t.room.hintsUsed == 0 && t.room.hintHistory == [] && t.room.pending == None
            && t.room.customTestCases == []
            && t.resolved == s.resolved + (if s.room.pending.Some?
                                           then multiset{s.room.pending.value.request} else multiset{})
            && (t.room.users, t.room.graceTimers, t.room.armed) == (s.room.users, s.room.graceTimers, s.room.armed)
            && (t.room.mode, t.room.submissionsUsed, t.room.executionInProgress, t.room.hintStreaming)
               == (s.room.mode, s.room.submissionsUsed, s.room.executionInProgress, s.room.hintStreaming)
            && (t.live, t.joins, t.consentTimer, t.consentArmed) == (s.live, s.joins, s.consentTimer, s.consentArmed)
  {
  }

  /** A custom test case is added at the end exactly while there is room for it. */
  lemma TestcaseAddedExactlyBelowTheLimit(s: State, testCase: string, now: int)
    ensures var t := Step(s, TestcaseChecked(testCase, now));
            && (|s.room.customTestCases| < s.room.customTestCaseLimit
                ==> t == s.(room := s.room.(customTestCases := t.room.customTestCases, lastActivityAt := now))
                    && t.room.customTestCases == s.room.customTestCases + [testCase])
            && (|s.room.customTestCases| >= s.room.customTestCaseLimit ==> t == s)
  {
  }

  // ---------------------------------------------------------------------------------------
  // What no event changes
  // ---------------------------------------------------------------------------------------

  /** A new room: nobody, nothing asked, used or chosen, and the given settings. */
  lemma FreshIsEmpty(mode: Mode, submissionLimit: int, testCaseLimit: int, now: int)
    ensures var s := Fresh(mode, submissionLimit, testCaseLimit, now);
            && s.live && s.room.users == [] && s.joins == map[] && s.room.problem == None && s.room.pending == None
            && (s.room.hintsUsed, s.room.hintLimit, s.room.submissionsUsed) == (0, 0, 0)
            && s.room.customTestCases == [] && s.room.hintHistory == []
            && !s.room.executionInProgress && !s.room.hintStreaming && s.room.lastActivityAt == now
            && Settings(s) == (mode, submissionLimit, testCaseLimit)
  {
  }

  function Settings(s: State): (Mode, int, int) {
    (s.room.mode, s.room.submissionLimit, s.room.customTestCaseLimit)
  }

  lemma StepKeepsSettings(s: State, e: Event)
    ensures Settings(Step(s, e)) == Settings(s) && Step(s, e).room.submissionsUsed == s.room.submissionsUsed
  {
    match e
    case Disconnected(socket) => LosingKeepsSettings(s, socket);
    case HintRequested(socket, cooledDown) => AskingKeepsSettings(s, socket, cooledDown);
    case GraceExpired(timer) => ExpiryKeepsSettings(s, timer);
    case JoinChecked(socket, allowed, now) => CheckKeepsSettings(s, socket, allowed, now);
    case _ =>
  }

  lemma LosingKeepsSettings(s: State, socket: nat)
    ensures var t := Disconnect(s, socket);
            Settings(t) == Settings(s) && t.room.submissionsUsed == s.room.submissionsUsed
  {
    var lost := LoseSocket(s, socket);
    assert Settings(lost) == Settings(s) && lost.room.submissionsUsed == s.room.submissionsUsed;
  }

  lemma AskingKeepsSettings(s: State, socket: nat, cooledDown: bool)
    ensures var t := RequestHint(s, socket, cooledDown);
            Settings(t) == Settings(s) && t.room.submissionsUsed == s.room.submissionsUsed
  {
  }

  lemma ExpiryKeepsSettings(s: State, timer: nat)
    ensures var t := ExpireGrace(s, timer);
            Settings(t) == Settings(s) && t.room.submissionsUsed == s.room.submissionsUsed
  {
  }

  lemma CheckKeepsSettings(s: State, socket: nat, allowed: bool, now: int)
    ensures var t := CheckJoin(s, socket, allowed, now);
            Settings(t) == Settings(s) && t.room.submissionsUsed == s.room.submissionsUsed
  {
  }

  /** The mode and the limits of a room are those it was made with, in every run. */
  lemma {:induction false} SettingsStay(s: State, events: seq<Event>)
    ensures Settings(Run(s, events)) == Settings(s)
    ensures Run(s, events).room.submissionsUsed == s.room.submissionsUsed
    decreases |events|
  {
    if events != [] {
      StepKeepsSettings(s, events[0]);
      SettingsStay(Step(s, events[0]), events[1..]);
    }
  }

  /** In an interview no hint is ever asked for. */
  lemma NoHintsInInterviews(submissionLimit: int, testCaseLimit: int, now: int, events: seq<Event>)
    ensures Run(Fresh(Interview, submissionLimit, testCaseLimit, now), events).accepted == multiset{}
  {
    NothingAccepted(Fresh(Interview, submissionLimit, testCaseLimit, now), events);
  }

  lemma {:induction false} NothingAccepted(s: State, events: seq<Event>)
    requires s.room.mode == Interview && s.accepted == multiset{}
    ensures Run(s, events).accepted == multiset{}
    decreases |events|
  {
    if events != [] {
      StepKeepsSettings(s, events[0]);
      AcceptsNothing(s, events[0]);
      NothingAccepted(Step(s, events[0]), events[1..]);
    }
  }

  lemma AcceptsNothing(s: State, e: Event)
    requires s.room.mode == Interview
    ensures Step(s, e).accepted == s.accepted
  {
    match e
    case JoinChecked(socket, allowed, now) => CheckAcceptsNothing(s, socket, allowed, now);
    case Disconnected(socket) => LosingAcceptsNothing(s, socket);
    case GraceExpired(timer) => ExpiryAcceptsNothing(s, timer);
    case _ =>
  }

  lemma CheckAcceptsNothing(s: State, socket: nat, allowed: bool, now: int)
    ensures CheckJoin(s, socket, allowed, now).accepted == s.accepted
  {
  }

  lemma LosingAcceptsNothing(s: State, socket: nat)
    ensures Disconnect(s, socket).accepted == s.accepted
  {
    assert RequesterGone(LoseSocket(s, socket)).accepted == LoseSocket(s, socket).accepted;
  }

  lemma ExpiryAcceptsNothing(s: State, timer: nat)
    ensures ExpireGrace(s, timer).accepted == s.accepted
  {
  }
}
