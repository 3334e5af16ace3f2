/** The socket handlers of a room as the source writes them: code that reads and writes one
    `Room` object in place. Each method is the code between two `await`s, or one timer
    callback, and is proved equal to the step of the protocol that the results about every
    interleaving are about.
 */
module RoomHandlers {
  import opened Common
  import opened RoomModel
  import opened RoomProtocol

  class RoomHandlers {
    const room: Room
    var live: bool
    var joins: map<nat, JoinPc>
    var consentTimer: Option<nat>
    var consentArmed: map<nat, nat>
    var next: nat
    ghost var everJoined: bool
    ghost var interviewers: seq<nat>
    ghost var reclaimed: multiset<nat>
    ghost var accepted: multiset<nat>
    ghost var resolved: multiset<nat>

    ghost function Abstract(): State
      reads this, room
    {
      State(room.Abstract(), live, joins, consentTimer, consentArmed, next,
            everJoined, interviewers, reclaimed, accepted, resolved)
    }

    constructor (mode: Mode, submissionLimit: int, customTestCaseLimit: int, now: int)
      ensures Abstract() == Fresh(mode, submissionLimit, customTestCaseLimit, now) && fresh(room)
    {
      room := new Room(mode, submissionLimit, customTestCaseLimit, now);
      live, joins, consentTimer, consentArmed, next := true, map[], None, map[], 0;
      everJoined, interviewers, reclaimed, accepted, resolved := false, [], multiset{}, multiset{}, multiset{};
    }

    // Joining

    /** `handleUserJoin` up to the rate limit. */
    method HandleUserJoin(socket: nat, name: string, token: Option<nat>)
      modifies this`joins
      ensures Abstract() == RequestJoin(old(Abstract()), socket, name, token)
    {
      if !live || socket in joins {
        return;
      }
      if BySocket(room.users, socket) >= 0 {
        return;
      }
      joins := joins[socket := Checking(name, token)];
    }

    /** From the capacity check to the new slot. */
    method AdmitUser(socket: nat, name: string, now: int)
      modifies this, room
      ensures Abstract() == Admit(old(Abstract()), socket, name, now)
    {
      joins := joins - {socket};
      if |room.users| >= MAX_USERS {
        return;
      }
      var role := if room.mode != Interview then Peer else if room.users == [] then Interviewer else Candidate;
      GiveSlot(socket, name, role, now);
    }

    method GiveSlot(socket: nat, name: string, role: Role, now: int)
      modifies this`next, this`everJoined, this`interviewers, room
      ensures var s := old(Abstract());
              Abstract() == s.(room := UserAdded(s.room, s.next, name, role, socket, s.next + 1, now),
                               next := s.next + 2,
                               everJoined := true,
                               interviewers := if role == Interviewer
                                               then s.interviewers + [s.next] else s.interviewers)
    {
      var user := room.AddUser(next, name, role, socket, next + 1, now);
      if role == Interviewer {
        interviewers := interviewers + [next];
      }
      next, everJoined := next + 2, true;
    }

    /** `tryReconnectUser` up to its first await. */
    method TryReconnectUser(socket: nat, token: nat, now: int) returns (reconnected: bool)
      modifies this, room
      ensures reconnected <==> ByReconnectToken(old(room.users), token) >= 0
      ensures reconnected ==>
                Abstract() == Reclaim(old(Abstract()), ByReconnectToken(old(room.users), token), socket, token, now)
      ensures !reconnected ==> Abstract() == old(Abstract())
    {
      var i := ByReconnectToken(room.users, token);
      if i < 0 {
        return false;
      }
      var user := room.ReconnectUser(room.users[i].id, socket, next, now);
      joins := joins - {socket};
      next := next + 1;
      reclaimed := reclaimed + multiset{token};
      return true;
    }

    /** `handleUserJoin` after the rate limit has answered. */
    method AfterRateLimit(socket: nat, allowed: bool, now: int)
      requires socket in joins && joins[socket].Checking?
      modifies this, room
      ensures Abstract() == CheckJoin(old(Abstract()), socket, allowed, now)
    {
      if !allowed {
        joins := joins - {socket};
        return;
      }
      var pc := joins[socket];
      if pc.token.None? {
        AdmitUser(socket, pc.name, now);
        return;
      }
      var reconnected := TryReconnectUser(socket, pc.token.value, now);
      if !reconnected {
        joins := joins[socket := Adding(pc.name)];
      }
    }

    // Leaving

    /** `handleDisconnect` of the room handler. */
    method HandleDisconnect(socket: nat)
      modifies this, room
      ensures live ==> Abstract() == LoseSocket(old(Abstract()), socket)
      ensures !live ==> Abstract() == old(Abstract())
    {
      if !live {
        return;
      }
      var i := BySocket(room.users, socket);
      if i < 0 {
        return;
      }
      room.Disconnect(i, next);
      next := next + 1;
    }

    /** The grace timer's callback: the entry of the timer goes first. */
    method GraceTimerFires(timer: nat)
      requires timer in room.armed
      modifies this, room
      ensures Abstract() == ExpireGrace(old(Abstract()), timer)
    {
      var id := room.armed[timer];
      room.armed := room.armed - {timer};
      room.gracePeriodTimers := room.gracePeriodTimers - {id};
      RemoveDisconnectedUser(id);
    }

    method RemoveDisconnectedUser(id: nat)
      modifies this, room
      ensures var s := old(Abstract());
              var i := ById(s.room.users, id);
              var left := s.(room := UserRemoved(s.room, id));
              Abstract() == if i < 0 || s.room.users[i].connected || s.room.users[i].socket.Some? then s
                            else if left.room.users != [] then left else Destroyed(left)
    {
      var i := ById(room.users, id);
      if i < 0 || room.users[i].connected || room.users[i].socket.Some? {
        return;
      }
      room.RemoveUser(id);
      if room.users != [] {
        return;
      }
      DestroyRoom();
    }

    method DestroyRoom()
      modifies this`live, room
      ensures Abstract() == Destroyed(old(Abstract()))
    {
      room.armed := room.armed - room.gracePeriodTimers.Values;
      room.gracePeriodTimers := map[];
      live := false;
    }

    // Hint consent

    method ClearTimer()
      modifies this`consentTimer, this`consentArmed
      ensures Abstract() == ClearConsentTimer(old(Abstract()))
    {
      if consentTimer.Some? {
        consentArmed := consentArmed - {consentTimer.value};
        consentTimer := None;
      }
    }

    /** `clearPendingHintRequest`; gives back who had asked. */
    method ClearPendingHintRequest() returns (requester: Option<nat>)
      modifies this`resolved, room`pendingHintRequest
      ensures Abstract() == ClearPending(old(Abstract()))
      ensures var pending := old(room.pendingHintRequest);
              requester == if pending.Some? then Some(pending.value.requestedBy) else None
    {
      if room.pendingHintRequest.None? {
        return None;
      }
      requester := Some(room.pendingHintRequest.value.requestedBy);
      resolved := resolved + multiset{room.pendingHintRequest.value.request};
      room.pendingHintRequest := None;
    }

    method StartTimer(request: nat)
      modifies this`consentTimer, this`consentArmed, this`next
      ensures Abstract() == StartConsentTimer(old(Abstract()), request)
    {
      ClearTimer();
      consentTimer := Some(next);
      consentArmed := consentArmed[next := request];
      next := next + 1;
    }

    /** The middleware's and the handler's checks, in the handler's order; a lone member's hint
        is delivered at once and changes none of these fields here. */
    method HandleHintRequest(socket: nat, cooledDown: bool)
      modifies this, room`pendingHintRequest
      ensures Abstract() == RequestHint(old(Abstract()), socket, cooledDown)
    {
      var i := IndexWhere(room.users, (u: User) => u.socket == Some(socket));
      if !live || room.mode == Interview || i < 0 || !cooledDown {
        return;
      }
      if room.problemId.None? || room.hintsUsed >= room.hintLimit {
        return;
      }
      if room.executionInProgress || room.pendingHintRequest.Some? || room.hintStreaming {
        return;
      }
      if ConnectedCount(room.users) <= 1 {
        return;
      }
      SendPendingHintRequest(socket);
    }

    method SendPendingHintRequest(socket: nat)
      requires MayRequestHint(Abstract(), socket, true) && ConnectedCount(room.users) > 1
      modifies this, room`pendingHintRequest
      ensures Abstract() == RequestHint(old(Abstract()), socket, true)
    {
      var i := IndexWhere(room.users, (u: User) => u.socket == Some(socket));
      SetPending(i);
      var other := IndexWhere(room.users, (u: User) => u.connected && u.socket != Some(socket));
      if other < 0 || room.users[other].socket.None? {
        return;
      }
      StartTimer(next - 1);
    }

    /** The request gets an identity of its own, which the source's time stamp stands for. */
    method SetPending(i: nat)
      requires i < |room.users|
      modifies this`next, this`accepted, room`pendingHintRequest
      ensures Abstract() == Asked(old(Abstract()), old(room.users[i].id))
    {
      room.pendingHintRequest := Some(PendingHint(next, room.users[i].id));
      accepted := accepted + multiset{next};
      next := next + 1;
    }

    /** Approving and denying, behind the middleware's checks. */
    method HandleHintAnswer(socket: nat)
      modifies this`consentTimer, this`consentArmed, this`resolved, room`pendingHintRequest
      ensures Abstract() == AnswerHint(old(Abstract()), socket)
    {
      var i := IndexWhere(room.users, (u: User) => u.socket == Some(socket));
      if !live || i < 0 || room.pendingHintRequest.None? {
        return;
      }
      if room.pendingHintRequest.value.requestedBy == room.users[i].id {
        return;
      }
      ClearTimer();
      var requester := ClearPendingHintRequest();
    }

    /** The consent timer's callback. */
    method ConsentTimerFires(timer: nat)
      requires timer in consentArmed
      modifies this`consentTimer, this`consentArmed, this`resolved, room`pendingHintRequest
      ensures Abstract() == ExpireConsent(old(Abstract()), timer)
    {
      consentArmed := consentArmed - {timer};
      consentTimer := None;
      if room.pendingHintRequest.None? {
        return;
      }
      var requester := ClearPendingHintRequest();
    }

    /** The hint handler's disconnect listener, which runs after the room's. */
    method HandleRequesterDisconnect()
      modifies this`consentTimer, this`consentArmed, this`resolved, room`pendingHintRequest
      ensures Abstract() == RequesterGone(old(Abstract()))
    {
      if room.pendingHintRequest.None? {
        return;
      }
      var i := ById(room.users, room.pendingHintRequest.value.requestedBy);
      if i >= 0 && !room.users[i].connected {
        ClearTimer();
        var requester := ClearPendingHintRequest();
      }
    }

    // Problems and test cases

    method LoadProblemIntoRoom(problem: nat, hintLimit: int, now: int)
      modifies this`resolved, room
      ensures Abstract() == LoadProblem(old(Abstract()), problem, hintLimit, now)
    {
      if room.pendingHintRequest.Some? {
        resolved := resolved + multiset{room.pendingHintRequest.value.request};
      }
      room.SwitchProblem(problem, hintLimit, now);
    }

    /** After the awaited check of the parameters the limit is checked again. */
    method AddTestCase(testCase: string, now: int)
      modifies room`customTestCases, room`lastActivityAt
      ensures Abstract() == AddTestcase(old(Abstract()), testCase, now)
    {
      if |room.customTestCases| >= room.customTestCaseLimit {
        return;
      }
      room.customTestCases := room.customTestCases + [testCase];
      room.lastActivityAt := now;
    }
  }
}
