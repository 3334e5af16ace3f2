/** One room under every interleaving of joins, reconnects, disconnects, grace timers, idle
    sweeps, hint consent and problem switches.

    Node runs the code between two `await`s in one piece, so each event below is one such
    segment (or one timer callback), and a run is any sequence of events. A join that has
    reached an `await` is remembered in `joins` under its socket: a socket has at most one join
    in flight. Ids, tokens and timer handles come from one counter and are never repeated.
 */
module RoomProtocol {
  import opened Common
  import opened RoomModel
  import opened RoomSlots

  datatype JoinPc =
    | Checking(name: string, token: Option<nat>)  // awaiting the join rate limit
    | Adding(name: string)                        // the reconnect attempt has failed

  /** `consentTimer` is the room's entry in the module-level map of consent timers, and
      `consentArmed` the consent timers the event loop still holds, each with the request it
      was started for. The last five fields are history. */
  datatype State = State(
    room: RoomData,
    live: bool,
    joins: map<nat, JoinPc>,
    consentTimer: Option<nat>,
    consentArmed: map<nat, nat>,
    next: nat,
    everJoined: bool,
    interviewers: seq<nat>,
    reclaimed: multiset<nat>,
    accepted: multiset<nat>,
    resolved: multiset<nat>)

  function Created(room: RoomData): State {
    State(room, true, map[], None, map[], 0, false, [], multiset{}, multiset{}, multiset{})
  }

  datatype Event =
    | JoinRequested(socket: nat, name: string, token: Option<nat>)
    | JoinChecked(socket: nat, allowed: bool, now: int)
    | JoinResumed(socket: nat, now: int)
    | Disconnected(socket: nat)
    | GraceExpired(timer: nat)
    | Swept
    | HintRequested(socket: nat, cooledDown: bool)
    | HintAnswered(socket: nat)                  // approved or denied by a member
    | ConsentExpired(timer: nat)
    | ProblemLoaded(problem: nat, hintLimit: int, now: int)
    | TestcaseChecked(testCase: string, now: int)
    | Elsewhere(hintsUsed: int, executionInProgress: bool, hintStreaming: bool)  // other handlers

  // ---------------------------------------------------------------------------------------
  // Joining
  // ---------------------------------------------------------------------------------------

  function RequestJoin(s: State, socket: nat, name: string, token: Option<nat>): State {
    if !s.live || socket in s.joins || BySocket(s.room.users, socket) >= 0 then s
    else s.(joins := s.joins[socket := Checking(name, token)])
  }

  /** The capacity check and the new slot, with no `await` between them. */
  function Admit(s: State, socket: nat, name: string, now: int): State {
    var t := s.(joins := s.joins - {socket});
    if IsFull(s.room) then t
    else
      var role := DetermineRole(s.room);
      t.(room := UserAdded(s.room, s.next, name, role, socket, s.next + 1, now), next := s.next + 2,
         everJoined := true,
         interviewers := if role == Interviewer then s.interviewers + [s.next] else s.interviewers)
  }

  function Reclaim(s: State, i: nat, socket: nat, token: nat, now: int): State
    requires i < |s.room.users|
  {
    s.(joins := s.joins - {socket},
       room := UserReconnected(s.room, s.room.users[i].id, socket, s.next, now), next := s.next + 1,
       reclaimed := s.reclaimed + multiset{token})
  }

  function CheckJoin(s: State, socket: nat, allowed: bool, now: int): State {
    if socket !in s.joins || !s.joins[socket].Checking? then s
    else if !allowed then s.(joins := s.joins - {socket})
    else
      var pc := s.joins[socket];
      match pc.token
      case None => Admit(s, socket, pc.name, now)
      case Some(token) =>
        var i := ByReconnectToken(s.room.users, token);
        if i >= 0 then Reclaim(s, i, socket, token, now) else s.(joins := s.joins[socket := Adding(pc.name)])
  }

  function ResumeJoin(s: State, socket: nat, now: int): State {
    if socket in s.joins && s.joins[socket].Adding? then Admit(s, socket, s.joins[socket].name, now) else s
  }

  // ---------------------------------------------------------------------------------------
  // Leaving
  // ---------------------------------------------------------------------------------------

  function ClearConsentTimer(s: State): State {
    if s.consentTimer.Some?
    then s.(consentArmed := s.consentArmed - {s.consentTimer.value}, consentTimer := None)
    else s
  }

  function ClearPending(s: State): State {
    match s.room.pending
    case None => s
    case Some(p) => s.(room := s.room.(pending := None), resolved := s.resolved + multiset{p.request})
  }

  /** The room's disconnect listener, then the hint handler's, in one turn. */
  function Disconnect(s: State, socket: nat): State {
    if !s.live then s else RequesterGone(LoseSocket(s, socket))
  }

  function LoseSocket(s: State, socket: nat): State {
    var i := BySocket(s.room.users, socket);
    if i < 0 then s
    else s.(room := GraceStarted(MarkedDisconnected(s.room, i), s.room.users[i].id, s.next), next := s.next + 1)
  }

  function RequesterGone(s: State): State {
    if s.room.pending.None? then s
    else
      var i := ById(s.room.users, s.room.pending.value.requestedBy);
      if i >= 0 && !s.room.users[i].connected then ClearPending(ClearConsentTimer(s)) else s
  }

  function Destroyed(s: State): State {
    s.(live := false,
       room := s.room.(armed := s.room.armed - s.room.graceTimers.Values, graceTimers := map[]))
  }

  function ExpireGrace(s: State, timer: nat): State {
    if timer !in s.room.armed then s
    else
      var id := s.room.armed[timer];
      var fired := s.(room := s.room.(armed := s.room.armed - {timer}, graceTimers := s.room.graceTimers - {id}));
      var i := ById(s.room.users, id);
      if i < 0 || s.room.users[i].connected || s.room.users[i].socket.Some? then fired
      else
        var left := fired.(room := UserRemoved(fired.room, id));
        if left.room.users != [] then left else Destroyed(left)
  }

  function Sweep(s: State): State {
    if s.live && ConnectedCount(s.room.users) == 0 then Destroyed(s) else s
  }

  // ---------------------------------------------------------------------------------------
  // Hint consent
  // ---------------------------------------------------------------------------------------

  function MemberBySocket(s: State, socket: nat): int {
    IndexWhere(s.room.users, (u: User) => u.socket == Some(socket))
  }

  function OtherConnected(s: State, socket: nat): int {
    IndexWhere(s.room.users, (u: User) => u.connected && u.socket != Some(socket))
  }

  predicate MayRequestHint(s: State, socket: nat, cooledDown: bool) {
    && s.live && s.room.mode != Interview && MemberBySocket(s, socket) >= 0
    && cooledDown && s.room.problem.Some? && s.room.hintsUsed < s.room.hintLimit
    && !s.room.executionInProgress && s.room.pending.None? && !s.room.hintStreaming
  }

  function StartConsentTimer(s: State, request: nat): State {
    var cleared := ClearConsentTimer(s);
    cleared.(consentTimer := Some(s.next), consentArmed := cleared.consentArmed[s.next := request], next := s.next + 1)
  }

  /** A request is pending, under an identity of its own. */
  function Asked(s: State, requester: nat): State {
    s.(room := s.room.(pending := Some(PendingHint(s.next, requester))), next := s.next + 1,
       accepted := s.accepted + multiset{s.next})
  }

  /** A lone member's hint is delivered at once, without consent. */
  function RequestHint(s: State, socket: nat, cooledDown: bool): State {
    if !MayRequestHint(s, socket, cooledDown) || ConnectedCount(s.room.users) <= 1 then s
    else
      var pending := Asked(s, s.room.users[MemberBySocket(s, socket)].id);
      var other := OtherConnected(s, socket);
      if other < 0 || s.room.users[other].socket.None? then pending else StartConsentTimer(pending, s.next)
  }

  function AnswerHint(s: State, socket: nat): State {
    var i := MemberBySocket(s, socket);
    if s.live && i >= 0 && s.room.pending.Some? && s.room.pending.value.requestedBy != s.room.users[i].id
    then ClearPending(ClearConsentTimer(s))
    else s
  }

  function ExpireConsent(s: State, timer: nat): State {
    if timer !in s.consentArmed then s
    else ClearPending(s.(consentArmed := s.consentArmed - {timer}, consentTimer := None))
  }

  /** The room switches without looking again at what the request was checked against, and
      leaves a running consent timer running. */
  function LoadProblem(s: State, problem: nat, hintLimit: int, now: int): State {
    var t := ClearPending(s);
    t.(room := ProblemSwitched(t.room, problem, hintLimit, now))
  }

  /** After the awaited parameter check the limit is checked again. */
  function AddTestcase(s: State, testCase: string, now: int): State {
    if |s.room.customTestCases| >= s.room.customTestCaseLimit then s
    else s.(room := s.room.(customTestCases := s.room.customTestCases + [testCase], lastActivityAt := now))
  }

  function Step(s: State, e: Event): State {
    match e
    case JoinRequested(socket, name, token) => RequestJoin(s, socket, name, token)
    case JoinChecked(socket, allowed, now) => CheckJoin(s, socket, allowed, now)
    case JoinResumed(socket, now) => ResumeJoin(s, socket, now)
    case Disconnected(socket) => Disconnect(s, socket)
    case GraceExpired(timer) => ExpireGrace(s, timer)
    case Swept => Sweep(s)
    case HintRequested(socket, cooledDown) => RequestHint(s, socket, cooledDown)
    case HintAnswered(socket) => AnswerHint(s, socket)
    case ConsentExpired(timer) => ExpireConsent(s, timer)
    case ProblemLoaded(problem, hintLimit, now) => LoadProblem(s, problem, hintLimit, now)
    case TestcaseChecked(testCase, now) => AddTestcase(s, testCase, now)
    case Elsewhere(hintsUsed, executing, streaming) =>
      s.(room := s.room.(hintsUsed := hintsUsed, executionInProgress := executing, hintStreaming := streaming))
  }

  function Run(s: State, events: seq<Event>): State
    decreases |events|
  {
    if events == [] then s else Run(Step(s, events[0]), events[1..])
  }

  // ---------------------------------------------------------------------------------------
  // Invariants
  // ---------------------------------------------------------------------------------------

  ghost predicate Slots(s: State) {
    && SlotsOf(s.room.users, s.joins.Keys, s.reclaimed, s.next)
    && |s.room.customTestCases| <= Max(0, s.room.customTestCaseLimit)
  }

  ghost predicate Timers(s: State) {
    TimersOf(s.room.users, s.room.graceTimers, s.room.armed, s.next)
  }

  /** What the mode and the history of interviewers make of a member. */
  function RoleOf(s: State, u: User): Role {
    if s.room.mode != Interview then Peer else if s.interviewers == [u.id] then Interviewer else Candidate
  }

  /** Roles in a live room: in interview mode exactly one user was made interviewer as soon as one
      joined, and sits in front, and the others are candidates; in other modes all are peers. */
  ghost predicate Roles(s: State) {
    var us := s.room.users;
    && (s.everJoined <==> us != [])
    && |s.interviewers| <= 1
    && (us == [] ==> s.interviewers == [])
    && (us != [] && s.room.mode == Interview ==> s.interviewers != [])
    && (s.room.mode != Interview ==> s.interviewers == [])
    && (forall id :: id in s.interviewers ==> id < s.next)
    && (forall i :: 0 <= i < |us| ==> us[i].role == RoleOf(s, us[i]))
    && (forall i :: 0 < i < |us| ==> us[i].role != Interviewer)
  }

  /** Hint consent: the pending request belongs to a connected member and has its own timer
      running; no consent timer runs that the room does not know of. */
  ghost predicate Consent(s: State) {
    && (s.consentTimer.None? ==> s.consentArmed == map[])
    && (s.consentTimer.Some? ==> s.consentArmed.Keys == {s.consentTimer.value} && s.consentTimer.value < s.next)
    && (s.room.pending.Some? ==>
          && s.live
          && s.consentTimer.Some?
          && s.consentArmed[s.consentTimer.value] == s.room.pending.value.request
          && exists i :: HeldBy(s.room.users, i, s.room.pending.value.requestedBy))
  }

  /** Every accepted request is either the pending one or resolved, and none twice. */
  ghost predicate Accounts(s: State) {
    && s.accepted == s.resolved + (if s.room.pending.Some? then multiset{s.room.pending.value.request} else multiset{})
    && forall q :: q in s.accepted ==> q < s.next && s.accepted[q] == 1
  }

  ghost predicate Inv(s: State) {
    && Slots(s) && Consent(s) && Accounts(s)
    && (s.live ==> Timers(s) && Roles(s))
    && (!s.live ==> s.room.armed == map[] && s.room.graceTimers == map[])
  }

  lemma RequestJoinKeeps(s: State, socket: nat, name: string, token: Option<nat>)
    requires Inv(s)
    ensures Inv(RequestJoin(s, socket, name, token))
  {
  }

  // Admission

  lemma AdmitSlots(s: State, socket: nat, name: string, now: int)
    requires Slots(s) && socket in s.joins
    ensures Slots(Admit(s, socket, name, now))
  {
    assert (s.joins - {socket}).Keys == s.joins.Keys - {socket};
    if !IsFull(s.room) {
      SlotAdded(s.room.users, User(s.next, name, DetermineRole(s.room), true, s.next + 1, Some(socket)),
                s.joins.Keys, s.reclaimed, s.next);
    }
  }

  lemma NextIsUnused(us: seq<User>, joining: set<nat>, reclaimed: multiset<nat>, next: nat)
    requires SlotsOf(us, joining, reclaimed, next)
    ensures !HasId(us, next)
  {
    forall i | 0 <= i < |us| ensures us[i].id != next {
      assert Seated(us[i], joining, reclaimed, next);
    }
  }

  lemma AdmitEffect(s: State, socket: nat, name: string, now: int)
    requires !IsFull(s.room)
    ensures var t := Admit(s, socket, name, now);
            && t.room.users == s.room.users + [User(s.next, name, DetermineRole(s.room), true, s.next + 1,
                                                    Some(socket))]
            && t.room.graceTimers == s.room.graceTimers && t.room.armed == s.room.armed && t.next == s.next + 2
  {
  }

  lemma AdmitTimers(s: State, socket: nat, name: string, now: int)
    requires Slots(s) && Timers(s)
    ensures Timers(Admit(s, socket, name, now))
  {
    if !IsFull(s.room) {
      AdmitEffect(s, socket, name, now);
      NextIsUnused(s.room.users, s.joins.Keys, s.reclaimed, s.next);
      TimersAdded(s.room.users, User(s.next, name, DetermineRole(s.room), true, s.next + 1, Some(socket)),
                  s.room.graceTimers, s.room.armed, s.next, s.next + 2);
    }
  }

  lemma AdmitRoles(s: State, socket: nat, name: string, now: int)
    requires Slots(s) && Roles(s)
    ensures Roles(Admit(s, socket, name, now))
  {
    var t := Admit(s, socket, name, now);
    forall i | 0 <= i < |t.room.users| ensures t.room.users[i].role == RoleOf(t, t.room.users[i]) {
      if i < |s.room.users| {
        assert t.room.users[i] == s.room.users[i];
      } else {
        assert s.room.users != [] && s.room.mode == Interview ==> s.next !in s.interviewers;
      }
    }
  }

  lemma AdmitConsent(s: State, socket: nat, name: string, now: int)
    requires Consent(s) && Accounts(s)
    ensures Consent(Admit(s, socket, name, now)) && Accounts(Admit(s, socket, name, now))
  {
    if s.room.pending.Some? {
      var k :| HeldBy(s.room.users, k, s.room.pending.value.requestedBy);
      assert HeldBy(Admit(s, socket, name, now).room.users, k, s.room.pending.value.requestedBy);
    }
  }

  lemma AdmitKeeps(s: State, socket: nat, name: string, now: int)
    requires Inv(s) && socket in s.joins
    ensures Inv(Admit(s, socket, name, now))
  {
    AdmitSlots(s, socket, name, now);
    AdmitConsent(s, socket, name, now);
    if s.live {
      AdmitTimers(s, socket, name, now);
      AdmitRoles(s, socket, name, now);
    }
  }

  // Reconnection

  /** Reconnecting replaces the connection and the token of one slot; ids, names, roles and
      the order of the slots stay, and the slot's timer is cancelled. */
  lemma ReclaimEffect(s: State, i: nat, socket: nat, token: nat, now: int)
    requires Slots(s) && i == ByReconnectToken(s.room.users, token)
    ensures var t := Reclaim(s, i, socket, token, now);
            var u := s.room.users[i];
            var g := s.room.graceTimers;
            && t.room.users == s.room.users[i := u.(connected := true, socket := Some(socket), token := s.next)]
            && t.room.graceTimers == g - {u.id}
            && t.room.armed == (if u.id in g then s.room.armed - {g[u.id]} else s.room.armed)
            && t.room.pending == s.room.pending && t.room.mode == s.room.mode
            && t.room.customTestCases == s.room.customTestCases
            && t.room.customTestCaseLimit == s.room.customTestCaseLimit
  {
    assert ById(s.room.users, s.room.users[i].id) == i;
  }

  lemma ReclaimSlots(s: State, i: nat, socket: nat, token: nat, now: int)
    requires Slots(s) && socket in s.joins && i == ByReconnectToken(s.room.users, token)
    ensures Slots(Reclaim(s, i, socket, token, now))
  {
    ReclaimEffect(s, i, socket, token, now);
    assert (s.joins - {socket}).Keys == s.joins.Keys - {socket};
    var v := s.room.users[i].(connected := true, socket := Some(socket), token := s.next);
    SlotReplaced(s.room.users, i, v, s.joins.Keys, {socket}, s.reclaimed, s.reclaimed + multiset{token}, s.next,
                 s.next + 1);
  }

  lemma ReclaimTimers(s: State, i: nat, socket: nat, token: nat, now: int)
    requires Slots(s) && Timers(s) && i == ByReconnectToken(s.room.users, token)
    ensures Timers(Reclaim(s, i, socket, token, now))
  {
    ReclaimEffect(s, i, socket, token, now);
    var v := s.room.users[i].(connected := true, socket := Some(socket), token := s.next);
    TimersCancelled(s.room.users, i, v, s.room.graceTimers, s.room.armed, s.next, s.next + 1);
  }

  lemma ReclaimRest(s: State, i: nat, socket: nat, token: nat, now: int)
    requires Slots(s) && Consent(s) && Accounts(s) && i == ByReconnectToken(s.room.users, token)
    ensures var t := Reclaim(s, i, socket, token, now);
            Consent(t) && Accounts(t) && (Roles(s) ==> Roles(t))
  {
    ReclaimEffect(s, i, socket, token, now);
    var us, vs := s.room.users, Reclaim(s, i, socket, token, now).room.users;
    assert forall k :: 0 <= k < |us| ==> vs[k].id == us[k].id && vs[k].role == us[k].role;
    if s.room.pending.Some? {
      var k :| HeldBy(us, k, s.room.pending.value.requestedBy);
      assert HeldBy(vs, k, s.room.pending.value.requestedBy);
    }
  }

  lemma ReclaimKeeps(s: State, i: nat, socket: nat, token: nat, now: int)
    requires Inv(s) && socket in s.joins && i == ByReconnectToken(s.room.users, token)
    ensures Inv(Reclaim(s, i, socket, token, now))
  {
    ReclaimSlots(s, i, socket, token, now);
    ReclaimRest(s, i, socket, token, now);
    ReclaimEffect(s, i, socket, token, now);
    if s.live {
      ReclaimTimers(s, i, socket, token, now);
    }
  }

  // Disconnection

  lemma LoseSocketSlots(s: State, socket: nat)
    requires Slots(s)
    ensures Slots(LoseSocket(s, socket))
  {
    var i := BySocket(s.room.users, socket);
    if i >= 0 {
      assert s.joins.Keys - {} == s.joins.Keys;
      SlotReplaced(s.room.users, i, s.room.users[i].(connected := false, socket := None),
                   s.joins.Keys, {}, s.reclaimed, s.reclaimed, s.next, s.next + 1);
    }
  }

  lemma LoseSocketTimers(s: State, socket: nat)
    requires Slots(s) && Timers(s)
    ensures Timers(LoseSocket(s, socket))
  {
    var i := BySocket(s.room.users, socket);
    if i >= 0 {
      TimersStarted(s.room.users, i, s.room.users[i].(connected := false, socket := None),
                    s.room.graceTimers, s.room.armed, s.next);
    }
  }

  lemma LoseSocketRoles(s: State, socket: nat)
    requires Roles(s)
    ensures Roles(LoseSocket(s, socket))
  {
    var us, vs := s.room.users, LoseSocket(s, socket).room.users;
    assert forall k :: 0 <= k < |us| ==> vs[k].id == us[k].id && vs[k].role == us[k].role;
  }

  lemma FoundById(us: seq<User>, k: nat)
    requires k < |us| && Distinct(us)
    ensures ById(us, us[k].id) == k
  {
  }

  lemma StillDistinct(us: seq<User>, i: nat, v: User)
    requires i < |us| && Distinct(us)
    requires v.id == us[i].id && v.token == us[i].token && v.socket.None?
    ensures Distinct(us[i := v])
  {
  }

  /** Only a requester who has just lost the connection has the request withdrawn. */
  lemma RequesterGoneConsent(s: State, socket: nat)
    requires Slots(s) && Consent(s) && Accounts(s)
    ensures Consent(RequesterGone(LoseSocket(s, socket)))
  {
    var i := BySocket(s.room.users, socket);
    if s.room.pending.Some? {
      var id := s.room.pending.value.requestedBy;
      var k :| HeldBy(s.room.users, k, id);
      if i < 0 {
        FoundById(s.room.users, k);
      } else {
        StaysFound(s.room.users, i, s.room.users[i].(connected := false, socket := None), k);
      }
    }
  }

  lemma StaysFound(us: seq<User>, i: nat, v: User, k: nat)
    requires i < |us| && k < |us| && Distinct(us) && us[k].connected
    requires v == us[i].(connected := false, socket := None)
    ensures ById(us[i := v], us[k].id) == k
    ensures i != k ==> HeldBy(us[i := v], k, us[k].id)
  {
    StillDistinct(us, i, v);
    FoundById(us[i := v], k);
  }

  lemma ClearedAccounts(s: State)
    requires Accounts(s)
    ensures Accounts(ClearPending(ClearConsentTimer(s)))
  {
  }

  lemma RequesterGoneAccounts(s: State, socket: nat)
    requires Accounts(s)
    ensures Accounts(RequesterGone(LoseSocket(s, socket)))
  {
    var t := LoseSocket(s, socket);
    assert Accounts(t);
    ClearedAccounts(t);
  }

  lemma DisconnectKeeps(s: State, socket: nat)
    requires Inv(s)
    ensures Inv(Disconnect(s, socket))
  {
    if s.live {
      LoseSocketSlots(s, socket);
      LoseSocketTimers(s, socket);
      LoseSocketRoles(s, socket);
      RequesterGoneConsent(s, socket);
      RequesterGoneAccounts(s, socket);
    }
  }

  // Grace expiry

  /** In a live room the guard of the expiry callback is never taken. */
  lemma ExpiryFindsItsUser(s: State, timer: nat)
    requires Timers(s) && Slots(s) && timer in s.room.armed
    ensures var i := ById(s.room.users, s.room.armed[timer]);
            i >= 0 && !s.room.users[i].connected && s.room.users[i].socket.None?
  {
    var id := s.room.armed[timer];
    assert HasId(s.room.users, id);
    var k :| 0 <= k < |s.room.users| && s.room.users[k].id == id;
    assert ById(s.room.users, id) == k;
  }

  lemma {:induction false} NobodyToRemove(us: seq<User>, id: nat)
    requires forall i :: 0 <= i < |us| ==> us[i].id != id
    ensures Without(us, id) == us
    decreases |us|
  {
    if us != [] {
      assert forall i :: 0 <= i < |us| - 1 ==> us[1..][i] == us[i + 1];
      NobodyToRemove(us[1..], id);
      assert us == [us[0]] + us[1..];
    }
  }

  lemma RemovedUsers(us: seq<User>, i: nat)
    requires i < |us| <= 2
    requires forall j, k :: 0 <= j < k < |us| ==> us[j].id != us[k].id
    ensures var vs := Without(us, us[i].id);
            && |vs| == |us| - 1
            && (|us| == 2 ==> vs[0] == us[1 - i])
  {
    var rest := us[1..];
    if i == 0 {
      NobodyToRemove(rest, us[0].id);
    } else {
      assert us[0].id != us[1].id && rest == [us[1]] && rest[1..] == [];
    }
  }

  /** What a grace timer's expiry leaves alone. */
  lemma ExpiryTouches(s: State, timer: nat)
    requires timer in s.room.armed
    ensures var (t, id) := (ExpireGrace(s, timer), s.room.armed[timer]);
            && t.joins == s.joins && t.reclaimed == s.reclaimed && t.next == s.next
            && t.consentTimer == s.consentTimer && t.consentArmed == s.consentArmed
            && t.accepted == s.accepted && t.resolved == s.resolved && t.room.pending == s.room.pending
            && t.room.customTestCases == s.room.customTestCases
            && t.room.customTestCaseLimit == s.room.customTestCaseLimit
            && (t.room.users == s.room.users || t.room.users == Without(s.room.users, id))
  {
  }

  lemma ExpireGraceSlots(s: State, timer: nat)
    requires Slots(s)
    ensures Slots(ExpireGrace(s, timer))
  {
    if timer in s.room.armed {
      ExpiryTouches(s, timer);
      WithoutSlots(s.room.users, s.room.armed[timer], s.joins.Keys, s.reclaimed, s.next);
    }
  }

  lemma WithoutSlots(us: seq<User>, id: nat, joining: set<nat>, reclaimed: multiset<nat>, next: nat)
    requires SlotsOf(us, joining, reclaimed, next)
    ensures SlotsOf(Without(us, id), joining, reclaimed, next)
  {
    var i := ById(us, id);
    if i >= 0 {
      RemovedUsers(us, i);
      SlotRemoved(us, i, Without(us, id), joining, reclaimed, next);
    } else {
      NobodyToRemove(us, id);
    }
  }

  /** Removing the user takes the timer's entry out a second time, which changes nothing. */
  lemma ExpiredTimersAre(s: State, timer: nat)
    requires Slots(s) && Timers(s) && timer in s.room.armed
    ensures var (t, id) := (ExpireGrace(s, timer), s.room.armed[timer]);
            && t.next == s.next && t.room.users == Without(s.room.users, id)
            && (t.room.users != []
                ==> t.room.graceTimers == s.room.graceTimers - {id} && t.room.armed == s.room.armed - {timer})
            && (t.room.users == [] ==> t.room.graceTimers == map[]
                                       && t.room.armed == (s.room.armed - {timer}) - (s.room.graceTimers - {id}).Values)
  {
    ExpiryFindsItsUser(s, timer);
    var grace := s.room.graceTimers - {s.room.armed[timer]};
    assert grace - {s.room.armed[timer]} == grace;
  }

  lemma ExpireGraceTimers(s: State, timer: nat)
    requires Slots(s) && Timers(s) && timer in s.room.armed
    ensures var t := ExpireGrace(s, timer);
            Timers(t) && (t.room.users == [] ==> t.room.armed == map[] && t.room.graceTimers == map[])
  {
    ExpiryFindsItsUser(s, timer);
    var us, i := s.room.users, ById(s.room.users, s.room.armed[timer]);
    RemovedUsers(us, i);
    TimersExpired(us, i, Without(us, us[i].id), s.room.graceTimers, s.room.armed, timer, s.next);
    ExpiredTimersAre(s, timer);
  }

  lemma ExpireGraceRoles(s: State, timer: nat)
    requires Slots(s) && Timers(s) && Roles(s) && timer in s.room.armed
    ensures var t := ExpireGrace(s, timer); t.live ==> Roles(t)
    ensures s.live ==> (ExpireGrace(s, timer).live <==> ExpireGrace(s, timer).room.users != [])
  {
    ExpiryFindsItsUser(s, timer);
    RemovedUsers(s.room.users, ById(s.room.users, s.room.armed[timer]));
  }

  lemma HolderStays(us: seq<User>, i: nat, vs: seq<User>, id: nat)
    requires i < |us| <= 2 && !us[i].connected
    requires |vs| == |us| - 1 && (|us| == 2 ==> vs[0] == us[1 - i])
    requires exists k :: HeldBy(us, k, id)
    ensures HeldBy(vs, 0, id)
  {
  }

  lemma ExpireGraceConsent(s: State, timer: nat)
    requires Slots(s) && Timers(s) && Consent(s) && Accounts(s) && timer in s.room.armed
    ensures var t := ExpireGrace(s, timer); Consent(t) && Accounts(t)
  {
    ExpiryTouches(s, timer);
    if s.room.pending.Some? {
      ExpiryKeepsHolder(s, timer, s.room.pending.value.requestedBy);
    }
  }

  /** A connected member stays, and with it the room. */
  lemma ExpiryKeepsHolder(s: State, timer: nat, id: nat)
    requires Slots(s) && Timers(s) && timer in s.room.armed && exists k :: HeldBy(s.room.users, k, id)
    ensures ExpireGrace(s, timer).live == s.live && exists k :: HeldBy(ExpireGrace(s, timer).room.users, k, id)
  {
    ExpiryFindsItsUser(s, timer);
    var us, i := s.room.users, ById(s.room.users, s.room.armed[timer]);
    RemovedUsers(us, i);
    HolderStays(us, i, Without(us, us[i].id), id);
    assert HeldBy(ExpireGrace(s, timer).room.users, 0, id);
  }

  lemma ExpireGraceKeeps(s: State, timer: nat)
    requires Inv(s)
    ensures Inv(ExpireGrace(s, timer))
  {
    if timer in s.room.armed {
      ExpireGraceSlots(s, timer);
      ExpireGraceTimers(s, timer);
      ExpireGraceRoles(s, timer);
      ExpireGraceConsent(s, timer);
    }
  }

  lemma NobodyHolds(us: seq<User>, id: nat)
    requires ConnectedCount(us) == 0
    ensures forall k :: !HeldBy(us, k, id)
  {
    assert forall k :: 0 <= k < |us| ==> us[k] in us;
  }

  lemma SweepKeeps(s: State)
    requires Inv(s)
    ensures Inv(Sweep(s))
  {
    if s.live && ConnectedCount(s.room.users) == 0 {
      if s.room.pending.Some? {
        NobodyHolds(s.room.users, s.room.pending.value.requestedBy);
      }
      assert s.room.armed.Keys <= s.room.graceTimers.Values;
    }
  }

  // Hints

  lemma {:induction false} CountTwo(us: seq<User>)
    requires |us| <= 2 && ConnectedCount(us) >= 2
    ensures |us| == 2 && us[0].connected && us[1].connected
  {
    if |us| == 2 {
      assert us[1..][1..] == [];
    }
  }

  /** A request that needs consent always finds another member with a socket, so its timer
      always starts. */
  lemma RequestHintEffect(s: State, socket: nat, cooledDown: bool)
    requires Slots(s) && MayRequestHint(s, socket, cooledDown) && ConnectedCount(s.room.users) > 1
    ensures var i := MemberBySocket(s, socket);
            && HeldBy(s.room.users, i, s.room.users[i].id)
            && RequestHint(s, socket, cooledDown) == StartConsentTimer(Asked(s, s.room.users[i].id), s.next)
  {
    CountTwo(s.room.users);
    assert OtherConnected(s, socket) == 1 - MemberBySocket(s, socket);
  }

  lemma AskedConsent(s: State, i: nat)
    requires Consent(s) && Accounts(s) && s.live && s.room.pending.None?
    requires i < |s.room.users| && s.room.users[i].connected
    ensures var t := StartConsentTimer(Asked(s, s.room.users[i].id), s.next); Consent(t) && Accounts(t)
  {
    assert HeldBy(s.room.users, i, s.room.users[i].id);
  }

  lemma AskedTimers(s: State, requester: nat)
    requires Timers(s)
    ensures Timers(StartConsentTimer(Asked(s, requester), s.next))
  {
  }

  lemma LaterIds(s: State, next: nat)
    requires SlotsOf(s.room.users, s.joins.Keys, s.reclaimed, s.next) && s.next <= next
    ensures SlotsOf(s.room.users, s.joins.Keys, s.reclaimed, next)
  {
    forall i | 0 <= i < |s.room.users| ensures Seated(s.room.users[i], s.joins.Keys, s.reclaimed, next) {
      assert Seated(s.room.users[i], s.joins.Keys, s.reclaimed, s.next);
    }
  }

  lemma AskedKeeps(s: State, i: nat)
    requires Inv(s) && s.live && s.room.pending.None? && i < |s.room.users| && s.room.users[i].connected
    ensures Inv(StartConsentTimer(Asked(s, s.room.users[i].id), s.next))
  {
    LaterIds(s, s.next + 2);
    AskedConsent(s, i);
    AskedTimers(s, s.room.users[i].id);
  }

  lemma RequestHintKeeps(s: State, socket: nat, cooledDown: bool)
    requires Inv(s)
    ensures Inv(RequestHint(s, socket, cooledDown))
  {
    if MayRequestHint(s, socket, cooledDown) && ConnectedCount(s.room.users) > 1 {
      RequestHintEffect(s, socket, cooledDown);
      AskedKeeps(s, MemberBySocket(s, socket));
    }
  }

  lemma AnswerHintKeeps(s: State, socket: nat)
    requires Inv(s)
    ensures Inv(AnswerHint(s, socket))
  {
  }

  lemma ExpireConsentKeeps(s: State, timer: nat)
    requires Inv(s)
    ensures Inv(ExpireConsent(s, timer))
  {
  }

  lemma LoadProblemKeeps(s: State, problem: nat, hintLimit: int, now: int)
    requires Inv(s)
    ensures Inv(LoadProblem(s, problem, hintLimit, now))
  {
  }

  lemma StepKeeps(s: State, e: Event)
    requires Inv(s)
    ensures Inv(Step(s, e))
  {
    match e
    case JoinRequested(socket, name, token) => RequestJoinKeeps(s, socket, name, token);
    case JoinChecked(socket, allowed, now) => CheckJoinKeeps(s, socket, allowed, now);
    case JoinResumed(socket, now) =>
      if socket in s.joins && s.joins[socket].Adding? { AdmitKeeps(s, socket, s.joins[socket].name, now); }
    case Disconnected(socket) => DisconnectKeeps(s, socket);
    case GraceExpired(timer) => ExpireGraceKeeps(s, timer);
    case Swept => SweepKeeps(s);
    case HintRequested(socket, cooledDown) => RequestHintKeeps(s, socket, cooledDown);
    case HintAnswered(socket) => AnswerHintKeeps(s, socket);
    case ConsentExpired(timer) => ExpireConsentKeeps(s, timer);
    case ProblemLoaded(problem, hintLimit, now) => LoadProblemKeeps(s, problem, hintLimit, now);
    case TestcaseChecked(testCase, now) =>
    case Elsewhere(hintsUsed, executing, streaming) =>
  }

  lemma CheckJoinKeeps(s: State, socket: nat, allowed: bool, now: int)
    requires Inv(s)
    ensures Inv(CheckJoin(s, socket, allowed, now))
  {
    if socket in s.joins && s.joins[socket].Checking? && allowed {
      match s.joins[socket].token
      case None => AdmitKeeps(s, socket, s.joins[socket].name, now);
      case Some(token) =>
        var i := ByReconnectToken(s.room.users, token);
        if i >= 0 { ReclaimKeeps(s, i, socket, token, now); }
    }
  }

  // ---------------------------------------------------------------------------------------
  // What holds in every run
  // ---------------------------------------------------------------------------------------

  function Fresh(mode: Mode, submissionLimit: int, testCaseLimit: int, now: int): State {
    Created(NewRoom(mode, submissionLimit, testCaseLimit, now))
  }

  lemma {:induction false} RunKeeps(s: State, events: seq<Event>)
    requires Inv(s)
    ensures Inv(Run(s, events))
    decreases |events|
  {
    if events != [] {
      StepKeeps(s, events[0]);
      RunKeeps(Step(s, events[0]), events[1..]);
    }
  }

  /** A state that the room reaches in some run. */
  ghost predicate Reachable(s: State) {
    exists mode, submissionLimit, testCaseLimit, now, events ::
      s == Run(Fresh(mode, submissionLimit, testCaseLimit, now), events)
  }

  lemma ReachableKeeps(s: State)
    requires Reachable(s)
    ensures Inv(s)
  {
    var mode, submissionLimit, testCaseLimit, now, events :|
      s == Run(Fresh(mode, submissionLimit, testCaseLimit, now), events);
    EveryRun(mode, submissionLimit, testCaseLimit, now, events);
  }

  lemma EveryRun(mode: Mode, submissionLimit: int, testCaseLimit: int, now: int, events: seq<Event>)
    ensures Inv(Run(Fresh(mode, submissionLimit, testCaseLimit, now), events))
  {
    RunKeeps(Fresh(mode, submissionLimit, testCaseLimit, now), events);
  }
}
