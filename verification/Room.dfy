/** A collaboration room: its users and their slots, the grace timers of disconnected users,
    and the counters and flags the handlers consult.

    User ids, reconnect tokens and timer handles are opaque numbers handed in by the caller;
    that fresh ones are never repeated is an assumption of the protocol, not of this module.
 */
module RoomModel {
  import opened Common

  datatype Mode = Collaboration | Interview

  datatype Role = Interviewer | Candidate | Peer

  datatype User = User(id: nat, name: string, role: Role, connected: bool, token: nat, socket: Option<nat>)

  datatype PendingHint = PendingHint(request: nat, requestedBy: nat)

  const MAX_USERS := 2

  /** The fields of a room. `armed` is what the event loop still holds of this room's grace
      timers: handle to user id; `graceTimers` is the room's own map, user id to handle. */
  datatype RoomData = RoomData(
    mode: Mode,
    users: seq<User>,
    graceTimers: map<nat, nat>,
    armed: map<nat, nat>,
    problem: Option<nat>,
    hintsUsed: int,
    hintLimit: int,
    pending: Option<PendingHint>,
    customTestCases: seq<string>,
    customTestCaseLimit: int,
    hintHistory: seq<string>,
    submissionsUsed: int,
    submissionLimit: int,
    executionInProgress: bool,
    hintStreaming: bool,
    lastActivityAt: int)

  function NewRoom(mode: Mode, submissionLimit: int, customTestCaseLimit: int, now: int): RoomData {
    RoomData(mode, [], map[], map[], None, 0, 0, None, [], customTestCaseLimit, [], 0, submissionLimit,
             false, false, now)
  }

  /** The first index whose user satisfies `p`, or -1. */
  function IndexWhere(users: seq<User>, p: User -> bool): (r: int)
    ensures -1 <= r < |users|
    ensures r >= 0 ==> p(users[r]) && forall j :: 0 <= j < r ==> !p(users[j])
    ensures r < 0 ==> forall j :: 0 <= j < |users| ==> !p(users[j])
    decreases |users|
  {
    if users == [] then -1
    else if p(users[0]) then 0
    else
      var rest := IndexWhere(users[1..], p);
      assert forall j :: 0 <= j < |users[1..]| ==> users[1..][j] == users[j + 1];
      assert forall j :: 1 <= j < |users| ==> users[j] == users[1..][j - 1];
      if rest < 0 then -1 else rest + 1
  }

  function ById(users: seq<User>, id: nat): int {
    IndexWhere(users, (u: User) => u.id == id)
  }

  function BySocket(users: seq<User>, socket: nat): int {
    IndexWhere(users, (u: User) => u.socket == Some(socket) && u.connected)
  }

  function ByReconnectToken(users: seq<User>, token: nat): int {
    IndexWhere(users, (u: User) => !u.connected && u.token == token)
  }

  function Without(users: seq<User>, id: nat): (r: seq<User>)
    ensures |r| <= |users|
    ensures forall u :: u in r <==> u in users && u.id != id
    decreases |users|
  {
    if users == [] then []
    else if users[0].id == id then Without(users[1..], id)
    else [users[0]] + Without(users[1..], id)
  }

  function ConnectedCount(users: seq<User>): (n: nat)
    ensures n == 0 <==> forall u :: u in users ==> !u.connected
    ensures n <= |users|
    decreases |users|
  {
    if users == [] then 0 else (if users[0].connected then 1 else 0) + ConnectedCount(users[1..])
  }

  function UserAdded(r: RoomData, id: nat, name: string, role: Role, socket: nat, token: nat, now: int): RoomData {
    r.(users := r.users + [User(id, name, role, true, token, Some(socket))], lastActivityAt := now)
  }

  function UserRemoved(r: RoomData, id: nat): RoomData {
    r.(users := Without(r.users, id), graceTimers := r.graceTimers - {id})
  }

  function GraceCancelled(r: RoomData, id: nat): RoomData {
    if id in r.graceTimers
    then r.(armed := r.armed - {r.graceTimers[id]}, graceTimers := r.graceTimers - {id})
    else r
  }

  function GraceStarted(r: RoomData, id: nat, timer: nat): RoomData {
    r.(armed := r.armed[timer := id], graceTimers := r.graceTimers[id := timer])
  }

  function UserReconnected(r: RoomData, id: nat, socket: nat, token: nat, now: int): RoomData {
    var i := ById(r.users, id);
    if i < 0 then r
    else
      var back := r.users[i].(connected := true, socket := Some(socket), token := token);
      GraceCancelled(r.(users := r.users[i := back]), id).(lastActivityAt := now)
  }

  /** The user at `i` loses the connection and keeps the slot. */
  function MarkedDisconnected(r: RoomData, i: nat): RoomData
    requires i < |r.users|
  {
    r.(users := r.users[i := r.users[i].(connected := false, socket := None)])
  }

  function ProblemSwitched(r: RoomData, problem: nat, hintLimit: int, now: int): RoomData {
    r.(problem := Some(problem), hintLimit := hintLimit, hintsUsed := 0, hintHistory := [],
       pending := None, customTestCases := [], lastActivityAt := now)
  }

  predicate CanExecute(r: RoomData) {
    r.problem.Some? && !r.executionInProgress && r.submissionsUsed < r.submissionLimit
  }

  predicate IsFull(r: RoomData) {
    |r.users| >= MAX_USERS
  }

  function DetermineRole(r: RoomData): Role {
    if r.mode != Interview then Peer else if r.users == [] then Interviewer else Candidate
  }

  // ---------------------------------------------------------------------------------------
  // The room as the source writes it
  // ---------------------------------------------------------------------------------------

  class Room {
    const mode: Mode
    const submissionLimit: int
    const customTestCaseLimit: int
    var users: seq<User>
    var gracePeriodTimers: map<nat, nat>
    var armed: map<nat, nat>
    var problemId: Option<nat>
    var hintsUsed: int
    var hintLimit: int
    var pendingHintRequest: Option<PendingHint>
    var customTestCases: seq<string>
    var hintHistory: seq<string>
    var submissionsUsed: int
    var executionInProgress: bool
    var hintStreaming: bool
    var lastActivityAt: int

    ghost function Abstract(): RoomData
      reads this
    {
      RoomData(mode, users, gracePeriodTimers, armed, problemId, hintsUsed, hintLimit, pendingHintRequest,
               customTestCases, customTestCaseLimit, hintHistory, submissionsUsed, submissionLimit,
               executionInProgress, hintStreaming, lastActivityAt)
    }

    constructor (mode: Mode, submissionLimit: int, customTestCaseLimit: int, now: int)
      ensures Abstract() == NewRoom(mode, submissionLimit, customTestCaseLimit, now)
    {
      this.mode, this.submissionLimit, this.customTestCaseLimit := mode, submissionLimit, customTestCaseLimit;
      users, gracePeriodTimers, armed, problemId := [], map[], map[], None;
      hintsUsed, hintLimit, pendingHintRequest, customTestCases, hintHistory := 0, 0, None, [], [];
      submissionsUsed, executionInProgress, hintStreaming, lastActivityAt := 0, false, false, now;
    }

    method AddUser(id: nat, name: string, role: Role, socket: nat, token: nat, now: int) returns (user: User)
      modifies this
      ensures Abstract() == UserAdded(old(Abstract()), id, name, role, socket, token, now)
      ensures user == users[|users| - 1]
    {
      user := User(id, name, role, true, token, Some(socket));
      users := users + [user];
      lastActivityAt := now;
    }

    method RemoveUser(id: nat)
      modifies this
      ensures Abstract() == UserRemoved(old(Abstract()), id)
    {
      users := Without(users, id);
      gracePeriodTimers := gracePeriodTimers - {id};
    }

    method ReconnectUser(id: nat, socket: nat, token: nat, now: int) returns (user: Option<User>)
      modifies this
      ensures Abstract() == UserReconnected(old(Abstract()), id, socket, token, now)
      ensures user.Some? <==> ById(old(users), id) >= 0
      ensures user.Some? ==> user.value in users && user.value.id == id && user.value.token == token
                             && user.value.connected && user.value.socket == Some(socket)
    {
      var i := ById(users, id);
      if i < 0 {
        return None;
      }
      users := users[i := users[i].(connected := true)];
      users := users[i := users[i].(socket := Some(socket))];
      users := users[i := users[i].(token := token)];
      CancelGracePeriod(id);
      lastActivityAt := now;
      return Some(users[i]);
    }

    method StartGracePeriod(id: nat, timer: nat)
      modifies this
      ensures Abstract() == GraceStarted(old(Abstract()), id, timer)
    {
      armed := armed[timer := id];
      gracePeriodTimers := gracePeriodTimers[id := timer];
    }

    method CancelGracePeriod(id: nat)
      modifies this
      ensures Abstract() == GraceCancelled(old(Abstract()), id)
    {
      if id in gracePeriodTimers {
        armed := armed - {gracePeriodTimers[id]};
        gracePeriodTimers := gracePeriodTimers - {id};
      }
    }

    /** The writes of the disconnect handler to the user at `i`. */
    method Disconnect(i: nat, timer: nat)
      requires i < |users|
      modifies this
      ensures Abstract() == GraceStarted(MarkedDisconnected(old(Abstract()), i), old(users)[i].id, timer)
    {
      users := users[i := users[i].(connected := false)];
      users := users[i := users[i].(socket := None)];
      StartGracePeriod(users[i].id, timer);
    }

    method SwitchProblem(problem: nat, limit: int, now: int)
      modifies this
      ensures Abstract() == ProblemSwitched(old(Abstract()), problem, limit, now)
    {
      problemId, hintLimit, hintsUsed := Some(problem), limit, 0;
      hintHistory, pendingHintRequest, customTestCases := [], None, [];
      lastActivityAt := now;
    }
  }
}
