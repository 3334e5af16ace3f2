/** Running and submitting code: the gates, the shared capacity limiter, the daily quota and
    the charge to the room, under every interleaving of any number of executions in any number
    of rooms.

    Each execution is a program counter; each event is the code between two `await`s. Rooms
    stay in the map after they are destroyed, since an execution keeps its room object.
 */
module ExecutionLedger {
  import opened Common
  import opened RoomModel
  import Limiter = OperationLimiter
  import Quota = DailyQuota
  import Store = ReliabilityStore

  datatype Pc =
    | IpCheck                    // awaiting the per-client rate limit
    | Loading                    // awaiting test cases, boilerplate and problem
    | Waiting                    // handed to the limiter: queued, or started and reserving
    | Replied(granted: bool)     // the store has answered, the handler has not resumed
    | Judging                    // submissionReserved is set; awaiting Judge0
    | Finishing(reserved: bool)  // on the way to the `finally` block

  datatype Execution = Execution(room: nat, pc: Pc)

  /** An allowed reservation: which room's execution asked for it, on which UTC day. */
  datatype Grant = Grant(room: nat, day: int)

  /** `grants` and `charged` are history, by execution id. */
  datatype State = State(
    rooms: map<nat, RoomData>,
    executions: map<nat, Execution>,
    limiter: Limiter.State,
    daily: Quota.DayCounters,
    grants: map<nat, Grant>,
    charged: set<nat>,
    used: set<nat>)  // execution ids handed out so far

  datatype Config = Config(limiter: Limiter.Config, dailyLimit: int)

  const EMPTY := State(map[], map[], Limiter.INITIAL, map[], map[], {}, {})

  datatype Event =
    | RoomCreated(room: nat, mode: Mode, submissionLimit: int, testCaseLimit: int, now: int)
    | RoomChanged(room: nat, to: RoomData)             // anything else that happens to a room
    | Requested(id: nat, room: nat)                    // middleware and first segment
    | IpChecked(id: nat, allowed: bool)
    | Loaded(id: nat, complete: bool)                  // false: missing resources, code too large, or an error
    | ReservationAnswered(id: nat, now: int)
    | ReservationFailed(id: nat, counted: bool, now: int)  // the store throws, before or after counting
    | Resumed(id: nat)
    | Judged(id: nat)                                  // a verdict or an error
    | Finished(id: nat)                                // the `finally` block

  /** An async callback never throws before its first `await`. */
  function Op(id: nat): Limiter.Operation { Limiter.Operation(id, false) }

  predicate At(s: State, id: nat, pc: Pc) {
    id in s.executions && s.executions[id].pc == pc
  }

  function Goto(s: State, id: nat, pc: Pc): State
    requires id in s.executions
  {
    s.(executions := s.executions[id := s.executions[id].(pc := pc)])
  }

  function Drop(s: State, id: nat): State {
    s.(executions := s.executions - {id})
  }

  /** The operation given to the limiter ends: the next one in the queue may start. */
  function Leave(c: Config, s: State, id: nat, reserved: bool): State
    requires id in s.executions
  {
    Goto(s, id, Finishing(reserved)).(limiter := Limiter.Settled(c.limiter, s.limiter, Op(id)))
  }

  predicate SameExecutionFields(a: RoomData, b: RoomData) {
    a.executionInProgress == b.executionInProgress && a.submissionsUsed == b.submissionsUsed
    && a.submissionLimit == b.submissionLimit
  }

  function Request(s: State, id: nat, room: nat): State {
    if id in s.used || room !in s.rooms || !CanExecute(s.rooms[room]) then s
    else s.(executions := s.executions[id := Execution(room, IpCheck)], used := s.used + {id})
  }

  function CheckIp(s: State, id: nat, allowed: bool): State {
    if !At(s, id, IpCheck) || s.executions[id].room !in s.rooms then s
    else
      var room := s.executions[id].room;
      if !allowed || !CanExecute(s.rooms[room]) then Drop(s, id)
      else Goto(s, id, Loading).(rooms := s.rooms[room := s.rooms[room].(executionInProgress := true)])
  }

  function Load(c: Config, s: State, id: nat, complete: bool): State {
    if !At(s, id, Loading) then s
    else if !complete then Goto(s, id, Finishing(false))
    else
      var (limiter, outcome) := Limiter.Submitted(c.limiter, s.limiter, Op(id));
      Goto(s, id, if outcome == Limiter.Rejected then Finishing(false) else Waiting).(limiter := limiter)
  }

  function Answer(c: Config, s: State, id: nat, now: int): State {
    if !At(s, id, Waiting) || Op(id) !in s.limiter.log.running then s
    else
      var (daily, reservation) := Quota.ReserveMemory(s.daily, Store.Judge0, c.dailyLimit, now);
      Goto(s, id, Replied(reservation.allowed)).(
        daily := daily,
        grants := if reservation.allowed
                  then s.grants[id := Grant(s.executions[id].room, Store.UtcDay(now))] else s.grants)
  }

  function FailReservation(c: Config, s: State, id: nat, counted: bool, now: int): State {
    if !At(s, id, Waiting) || Op(id) !in s.limiter.log.running then s
    else
      var daily := if counted then Quota.ReserveMemory(s.daily, Store.Judge0, c.dailyLimit, now).0 else s.daily;
      Leave(c, s, id, false).(daily := daily)
  }

  function Resume(c: Config, s: State, id: nat): State {
    if At(s, id, Replied(true)) then Goto(s, id, Judging)
    else if At(s, id, Replied(false)) then Leave(c, s, id, false)
    else s
  }

  function Finish(s: State, id: nat): State {
    if id !in s.executions || !s.executions[id].pc.Finishing? || s.executions[id].room !in s.rooms then s
    else
      var Execution(room, pc) := s.executions[id];
      var r := s.rooms[room];
      Drop(s, id).(
        rooms := s.rooms[room := r.(executionInProgress := false,
                                    submissionsUsed := r.submissionsUsed + if pc.reserved then 1 else 0)],
        charged := if pc.reserved then s.charged + {id} else s.charged)
  }

  function Step(c: Config, s: State, e: Event): State {
    match e
    case RoomCreated(room, mode, submissionLimit, testCaseLimit, now) =>
      if room in s.rooms then s
      else s.(rooms := s.rooms[room := NewRoom(mode, submissionLimit, testCaseLimit, now)])
    case RoomChanged(room, to) =>
      if room in s.rooms && SameExecutionFields(s.rooms[room], to) then s.(rooms := s.rooms[room := to]) else s
    case Requested(id, room) => Request(s, id, room)
    case IpChecked(id, allowed) => CheckIp(s, id, allowed)
    case Loaded(id, complete) => Load(c, s, id, complete)
    case ReservationAnswered(id, now) => Answer(c, s, id, now)
    case ReservationFailed(id, counted, now) => FailReservation(c, s, id, counted, now)
    case Resumed(id) => Resume(c, s, id)
    case Judged(id) => if At(s, id, Judging) then Leave(c, s, id, true) else s
    case Finished(id) => Finish(s, id)
  }

  function Run(c: Config, s: State, events: seq<Event>): State
    decreases |events|
  {
    if events == [] then s else Run(c, Step(c, s, events[0]), events[1..])
  }

  // ---------------------------------------------------------------------------------------
  // Invariants, each over the fields it needs
  // ---------------------------------------------------------------------------------------

  /** Between setting `executionInProgress` and the `finally` block. */
  predicate Busy(e: Execution) {
    e.pc != IpCheck
  }

  /** Holding a granted slot of the daily quota that is not yet charged to the room. */
  predicate Holding(e: Execution) {
    e.pc == Replied(true) || e.pc == Judging || e.pc == Finishing(true)
  }

  /** The room's flag says whether one of its executions is busy, and never are two. */
  ghost predicate OneBusy(rooms: map<nat, RoomData>, execs: map<nat, Execution>) {
    && (forall id :: id in execs ==> execs[id].room in rooms)
    && (forall id :: id in execs && Busy(execs[id]) ==> rooms[execs[id].room].executionInProgress)
    && (forall room :: room in rooms && rooms[room].executionInProgress ==> HasBusy(execs, room))
    && (forall a, b :: a in execs && b in execs && Busy(execs[a]) && Busy(execs[b]) && execs[a].room == execs[b].room
                       ==> a == b)
  }

  ghost predicate HasBusy(execs: map<nat, Execution>, room: nat) {
    exists id :: id in execs && Busy(execs[id]) && execs[id].room == room
  }

  ghost predicate WithinLimit(r: RoomData) {
    && 0 <= r.submissionsUsed
    && r.submissionsUsed + (if r.executionInProgress then 1 else 0) <= Max(0, r.submissionLimit)
  }

  ghost predicate Limits(rooms: map<nat, RoomData>) {
    forall room :: room in rooms ==> WithinLimit(rooms[room])
  }

  function ChargedTo(grants: map<nat, Grant>, charged: set<nat>, room: nat): set<nat> {
    set id | id in charged && id in grants && grants[id].room == room
  }

  /** A grant is either charged, to the room whose execution got it, or still held. */
  ghost predicate Booked(execs: map<nat, Execution>, grants: map<nat, Grant>, charged: set<nat>) {
    && (forall id :: id in grants <==> id in charged || (id in execs && Holding(execs[id])))
    && (forall id :: id in charged ==> id !in execs)
    && (forall id :: id in execs && Holding(execs[id]) ==> id in grants && grants[id].room == execs[id].room)
  }

  ghost predicate Priced(rooms: map<nat, RoomData>, grants: map<nat, Grant>, charged: set<nat>) {
    && (forall room :: room in rooms ==> rooms[room].submissionsUsed == |ChargedTo(grants, charged, room)|)
    && (forall id :: id in charged ==> id in grants && grants[id].room in rooms)
  }

  function GrantedOn(grants: map<nat, Grant>, day: int): set<nat> {
    set id | id in grants && grants[id].day == day
  }

  ghost predicate WithinQuota(c: Config, daily: Quota.DayCounters, grants: map<nat, Grant>) {
    forall day :: |GrantedOn(grants, day)| <= Quota.Used(daily, Store.Judge0, day) <= Max(0, c.dailyLimit)
  }

  /** Inside the operation given to the limiter. */
  predicate InLimiter(e: Execution) {
    e.pc == Waiting || e.pc.Replied? || e.pc == Judging
  }

  /** Executions in the limiter are the limiter's accepted, unsettled operations. */
  ghost predicate Admitted(execs: map<nat, Execution>, log: Limiter.Log, used: set<nat>) {
    && (forall op :: op in log.accepted ==> !op.throwsSync && op.id in used)
    && (forall id :: id in execs && InLimiter(execs[id]) ==> Op(id) in log.accepted && Op(id) !in log.settled)
    && (forall id :: id in execs && !InLimiter(execs[id]) && !execs[id].pc.Finishing? ==> Op(id) !in log.accepted)
    && (forall id :: id in execs && (execs[id].pc.Replied? || execs[id].pc == Judging) ==> Op(id) in log.running)
    && execs.Keys <= used
  }

  ghost predicate Books(c: Config, s: State) {
    && OneBusy(s.rooms, s.executions)
    && Limits(s.rooms)
    && Booked(s.executions, s.grants, s.charged)
    && Priced(s.rooms, s.grants, s.charged)
    && WithinQuota(c, s.daily, s.grants)
  }

  ghost predicate Inv(c: Config, s: State) {
    Books(c, s) && Limiter.Inv(c.limiter, s.limiter) && Admitted(s.executions, s.limiter.log, s.used)
    && s.grants.Keys <= s.used
  }

  // ---------------------------------------------------------------------------------------
  // One busy execution per room
  // ---------------------------------------------------------------------------------------

  lemma BusyMoved(rooms: map<nat, RoomData>, execs: map<nat, Execution>, id: nat, pc: Pc)
    requires OneBusy(rooms, execs) && id in execs && Busy(execs[id]) && pc != IpCheck
    ensures OneBusy(rooms, execs[id := execs[id].(pc := pc)])
  {
    var after := execs[id := execs[id].(pc := pc)];
    forall room | HasBusy(execs, room) ensures HasBusy(after, room) {
      var k :| k in execs && Busy(execs[k]) && execs[k].room == room;
      assert k in after && Busy(after[k]) && after[k].room == room;
    }
  }

  lemma IdleAdded(rooms: map<nat, RoomData>, execs: map<nat, Execution>, id: nat, room: nat)
    requires OneBusy(rooms, execs) && id !in execs && room in rooms
    ensures OneBusy(rooms, execs[id := Execution(room, IpCheck)])
  {
    var after := execs[id := Execution(room, IpCheck)];
    forall r | HasBusy(execs, r) ensures HasBusy(after, r) {
      var k :| k in execs && Busy(execs[k]) && execs[k].room == r;
      assert k in after && Busy(after[k]) && after[k].room == r;
    }
  }

  lemma IdleDropped(rooms: map<nat, RoomData>, execs: map<nat, Execution>, id: nat)
    requires OneBusy(rooms, execs) && id in execs && !Busy(execs[id])
    ensures OneBusy(rooms, execs - {id})
  {
    forall r | HasBusy(execs, r) ensures HasBusy(execs - {id}, r) {
      var k :| k in execs && Busy(execs[k]) && execs[k].room == r;
      assert k in execs - {id};
    }
  }

  lemma BusyStarted(rooms: map<nat, RoomData>, execs: map<nat, Execution>, id: nat, r: RoomData)
    requires OneBusy(rooms, execs) && id in execs
    requires !rooms[execs[id].room].executionInProgress && r.executionInProgress
    ensures OneBusy(rooms[execs[id].room := r], execs[id := execs[id].(pc := Loading)])
  {
    var after := execs[id := execs[id].(pc := Loading)];
    assert id in after && Busy(after[id]);
    forall room | HasBusy(execs, room) ensures HasBusy(after, room) {
      var k :| k in execs && Busy(execs[k]) && execs[k].room == room;
      assert k in after && Busy(after[k]) && after[k].room == room;
    }
    assert HasBusy(after, execs[id].room);
  }

  lemma BusyEnded(rooms: map<nat, RoomData>, execs: map<nat, Execution>, id: nat, r: RoomData)
    requires OneBusy(rooms, execs) && id in execs && Busy(execs[id]) && !r.executionInProgress
    ensures OneBusy(rooms[execs[id].room := r], execs - {id})
  {
    forall room | HasBusy(execs, room) && room != execs[id].room ensures HasBusy(execs - {id}, room) {
      var k :| k in execs && Busy(execs[k]) && execs[k].room == room;
      assert k in execs - {id};
    }
  }

  lemma RoomReplaced(rooms: map<nat, RoomData>, execs: map<nat, Execution>, room: nat, r: RoomData)
    requires OneBusy(rooms, execs)
    requires if room in rooms then r.executionInProgress == rooms[room].executionInProgress else !r.executionInProgress
    ensures OneBusy(rooms[room := r], execs)
  {
  }

  // ---------------------------------------------------------------------------------------
  // Grants and charges
  // ---------------------------------------------------------------------------------------

  lemma UnheldMoved(execs: map<nat, Execution>, grants: map<nat, Grant>, charged: set<nat>, id: nat, pc: Pc)
    requires Booked(execs, grants, charged) && id in execs
    requires Holding(execs[id]) == Holding(execs[id].(pc := pc))
    ensures Booked(execs[id := execs[id].(pc := pc)], grants, charged)
  {
  }

  lemma Granted(execs: map<nat, Execution>, grants: map<nat, Grant>, charged: set<nat>, id: nat, day: int)
    requires Booked(execs, grants, charged) && id in execs && !Holding(execs[id])
    ensures id !in grants
    ensures Booked(execs[id := execs[id].(pc := Replied(true))], grants[id := Grant(execs[id].room, day)], charged)
  {
  }

  lemma GrantPriced(rooms: map<nat, RoomData>, grants: map<nat, Grant>, charged: set<nat>, id: nat, g: Grant)
    requires Priced(rooms, grants, charged) && id !in grants
    ensures Priced(rooms, grants[id := g], charged)
  {
    forall room | room in rooms ensures ChargedTo(grants[id := g], charged, room) == ChargedTo(grants, charged, room) {
    }
  }

  lemma ChargeBooked(execs: map<nat, Execution>, grants: map<nat, Grant>, charged: set<nat>, id: nat)
    requires Booked(execs, grants, charged) && id in execs
    ensures Holding(execs[id]) ==> Booked(execs - {id}, grants, charged + {id})
    ensures !Holding(execs[id]) ==> Booked(execs - {id}, grants, charged)
  {
  }

  lemma ChargedTogether(grants: map<nat, Grant>, charged: set<nat>, id: nat, room: nat)
    requires id in grants && id !in charged
    ensures |ChargedTo(grants, charged + {id}, room)|
            == |ChargedTo(grants, charged, room)| + if grants[id].room == room then 1 else 0
  {
    if grants[id].room == room {
      assert ChargedTo(grants, charged + {id}, room) == ChargedTo(grants, charged, room) + {id};
    } else {
      assert ChargedTo(grants, charged + {id}, room) == ChargedTo(grants, charged, room);
    }
  }

  lemma ChargePriced(rooms: map<nat, RoomData>, grants: map<nat, Grant>, charged: set<nat>, id: nat, r: RoomData)
    requires Priced(rooms, grants, charged) && id in grants && id !in charged && grants[id].room in rooms
    requires r.submissionsUsed == rooms[grants[id].room].submissionsUsed + 1
    ensures Priced(rooms[grants[id].room := r], grants, charged + {id})
  {
    forall room
      ensures |ChargedTo(grants, charged + {id}, room)|
              == |ChargedTo(grants, charged, room)| + if grants[id].room == room then 1 else 0
    {
      ChargedTogether(grants, charged, id, room);
    }
  }

  lemma RepricedRoom(rooms: map<nat, RoomData>, grants: map<nat, Grant>, charged: set<nat>, room: nat, r: RoomData)
    requires Priced(rooms, grants, charged)
    requires r.submissionsUsed == if room in rooms then rooms[room].submissionsUsed else 0
    ensures Priced(rooms[room := r], grants, charged)
  {
    if room !in rooms {
      assert ChargedTo(grants, charged, room) == {};
    }
  }

  // ---------------------------------------------------------------------------------------
  // The daily quota
  // ---------------------------------------------------------------------------------------

  /** The counter moves by one exactly on an allowed reservation, for that day only. */
  lemma ReserveCounts(daily: Quota.DayCounters, limit: int, now: int, day: int)
    ensures var (after, res) := Quota.ReserveMemory(daily, Store.Judge0, limit, now);
            && Quota.Used(after, Store.Judge0, day)
               == Quota.Used(daily, Store.Judge0, day) + (if res.allowed && day == Store.UtcDay(now) then 1 else 0)
            && (res.allowed <==> Quota.Used(daily, Store.Judge0, Store.UtcDay(now)) < limit)
  {
  }

  lemma QuotaAfterReserve(c: Config, daily: Quota.DayCounters, grants: map<nat, Grant>, now: int)
    requires WithinQuota(c, daily, grants)
    ensures WithinQuota(c, Quota.ReserveMemory(daily, Store.Judge0, c.dailyLimit, now).0, grants)
  {
    var after := Quota.ReserveMemory(daily, Store.Judge0, c.dailyLimit, now).0;
    forall day ensures |GrantedOn(grants, day)| <= Quota.Used(after, Store.Judge0, day) <= Max(0, c.dailyLimit) {
      ReserveCounts(daily, c.dailyLimit, now, day);
      assert |GrantedOn(grants, day)| <= Quota.Used(daily, Store.Judge0, day);
    }
  }

  lemma OneMoreGrant(grants: map<nat, Grant>, id: nat, g: Grant, day: int)
    requires id !in grants
    ensures |GrantedOn(grants[id := g], day)| == |GrantedOn(grants, day)| + (if g.day == day then 1 else 0)
  {
    if g.day == day {
      assert GrantedOn(grants[id := g], day) == GrantedOn(grants, day) + {id};
    } else {
      assert GrantedOn(grants[id := g], day) == GrantedOn(grants, day);
    }
  }

  lemma QuotaAfterGrant(c: Config, daily: Quota.DayCounters, grants: map<nat, Grant>, now: int, id: nat, room: nat)
    requires WithinQuota(c, daily, grants) && id !in grants
    requires Quota.ReserveMemory(daily, Store.Judge0, c.dailyLimit, now).1.allowed
    ensures WithinQuota(c, Quota.ReserveMemory(daily, Store.Judge0, c.dailyLimit, now).0,
                        grants[id := Grant(room, Store.UtcDay(now))])
  {
    var after := Quota.ReserveMemory(daily, Store.Judge0, c.dailyLimit, now).0;
    var more := grants[id := Grant(room, Store.UtcDay(now))];
    forall day ensures |GrantedOn(more, day)| <= Quota.Used(after, Store.Judge0, day) <= Max(0, c.dailyLimit) {
      ReserveCounts(daily, c.dailyLimit, now, day);
      assert |GrantedOn(grants, day)| <= Quota.Used(daily, Store.Judge0, day);
      OneMoreGrant(grants, id, Grant(room, Store.UtcDay(now)), day);
    }
  }

  // ---------------------------------------------------------------------------------------
  // The limiter
  // ---------------------------------------------------------------------------------------

  /** With no work that throws at once, draining only moves queued work to running work. */
  lemma {:induction false} DrainedCalm(c: Limiter.Config, l: Limiter.State)
    requires forall op :: op in l.queue ==> !op.throwsSync
    ensures var d := Limiter.Drained(c, l);
            && d.log.settled == l.log.settled && d.log.accepted == l.log.accepted
            && l.log.running <= d.log.running
    decreases |l.queue|
  {
    if l.active < c.maxInFlight && l.queue != [] {
      DrainedCalm(c, Limiter.Begin(l.(queue := l.queue[1..]), l.queue[0]));
    }
  }

  lemma QueueIsAccepted(c: Limiter.Config, l: Limiter.State, op: Limiter.Operation)
    requires Limiter.Inv(c, l) && op in l.queue
    ensures op in l.log.accepted
  {
    assert op in l.log.started + l.queue;
  }

  lemma SettledCalm(c: Limiter.Config, l: Limiter.State, id: nat)
    requires c.Valid() && Limiter.Inv(c, l) && Op(id) in l.log.running
    requires forall op :: op in l.log.accepted ==> !op.throwsSync
    ensures var d := Limiter.Settled(c, l, Op(id));
            && Limiter.Inv(c, d)
            && d.log.accepted == l.log.accepted && d.log.settled == l.log.settled + [Op(id)]
            && forall op :: op in l.log.running && op != Op(id) ==> op in d.log.running
  {
    Limiter.SettledKeeps(c, l, Op(id));
    forall op | op in l.queue ensures !op.throwsSync {
      QueueIsAccepted(c, l, op);
    }
    var finished := Limiter.Finish(l, Op(id));
    DrainedCalm(c, finished);
    forall op | op in l.log.running && op != Op(id) ensures op in Limiter.Settled(c, l, Op(id)).log.running {
      assert finished.log.running[op] == l.log.running[op];
    }
  }

  lemma AdmittedLeaves(execs: map<nat, Execution>, before: Limiter.Log, after: Limiter.Log, used: set<nat>, id: nat,
                       reserved: bool)
    requires Admitted(execs, before, used) && id in execs
    requires after.accepted == before.accepted && after.settled == before.settled + [Op(id)]
    requires forall op :: op in before.running && op != Op(id) ==> op in after.running
    ensures Admitted(execs[id := execs[id].(pc := Finishing(reserved))], after, used)
  {
  }

  lemma SubmittedCalm(c: Limiter.Config, l: Limiter.State, id: nat)
    requires c.Valid() && Limiter.Inv(c, l)
    ensures var (d, outcome) := Limiter.Submitted(c, l, Op(id));
            && Limiter.Inv(c, d) && d.log.settled == l.log.settled
            && d.log.accepted == (if outcome == Limiter.Rejected then l.log.accepted else l.log.accepted + [Op(id)])
            && (forall op :: op in l.log.running ==> op in d.log.running)
  {
    Limiter.SubmittedKeeps(c, l, Op(id));
  }

  lemma SettledWereAccepted(c: Limiter.Config, l: Limiter.State)
    requires Limiter.Inv(c, l)
    ensures forall op :: op in l.log.settled ==> op in l.log.accepted
  {
    forall op | op in l.log.settled ensures op in l.log.accepted {
      assert op in multiset(l.log.settled);
      assert op in multiset(l.log.started);
      assert op in l.log.started + l.queue;
    }
  }

  lemma AdmittedEnters(execs: map<nat, Execution>, before: Limiter.Log, after: Limiter.Log, used: set<nat>, id: nat)
    requires Admitted(execs, before, used) && id in execs && execs[id].pc == Loading
    requires forall op :: op in before.settled ==> op in before.accepted
    requires after.settled == before.settled && forall op :: op in before.running ==> op in after.running
    ensures after.accepted == before.accepted + [Op(id)] ==>
              Admitted(execs[id := execs[id].(pc := Waiting)], after, used)
    ensures after.accepted == before.accepted ==> Admitted(execs[id := execs[id].(pc := Finishing(false))], after, used)
  {
  }

  lemma AdmittedMoves(execs: map<nat, Execution>, log: Limiter.Log, used: set<nat>, id: nat, pc: Pc)
    requires Admitted(execs, log, used) && id in execs
    requires InLimiter(execs[id].(pc := pc)) == InLimiter(execs[id])
    requires !InLimiter(execs[id]) && execs[id].pc.Finishing? ==> pc.Finishing?
    requires (pc.Replied? || pc == Judging) ==> Op(id) in log.running
    ensures Admitted(execs[id := execs[id].(pc := pc)], log, used)
  {
  }

  // ---------------------------------------------------------------------------------------
  // Every step keeps the invariant
  // ---------------------------------------------------------------------------------------

  lemma RequestKeeps(c: Config, s: State, id: nat, room: nat)
    requires Inv(c, s) && id !in s.used && room in s.rooms
    ensures Inv(c, s.(executions := s.executions[id := Execution(room, IpCheck)], used := s.used + {id}))
  {
    IdleAdded(s.rooms, s.executions, id, room);
    FreshBooked(s.executions, s.grants, s.charged, id, room);
    AdmittedFresh(s.executions, s.limiter.log, s.used, id, room);
  }

  lemma FreshBooked(execs: map<nat, Execution>, grants: map<nat, Grant>, charged: set<nat>, id: nat, room: nat)
    requires Booked(execs, grants, charged) && id !in execs && id !in grants
    ensures Booked(execs[id := Execution(room, IpCheck)], grants, charged)
  {
  }

  lemma AdmittedFresh(execs: map<nat, Execution>, log: Limiter.Log, used: set<nat>, id: nat, room: nat)
    requires Admitted(execs, log, used) && id !in used
    ensures Admitted(execs[id := Execution(room, IpCheck)], log, used + {id})
  {
    assert Op(id) !in log.accepted;
  }

  lemma StartBooks(c: Config, s: State, id: nat, r: RoomData)
    requires Books(c, s) && At(s, id, IpCheck) && CanExecute(s.rooms[s.executions[id].room])
    requires r == s.rooms[s.executions[id].room].(executionInProgress := true)
    ensures Books(c, Goto(s, id, Loading).(rooms := s.rooms[s.executions[id].room := r]))
  {
    BusyStarted(s.rooms, s.executions, id, r);
    UnheldMoved(s.executions, s.grants, s.charged, id, Loading);
    RepricedRoom(s.rooms, s.grants, s.charged, s.executions[id].room, r);
    assert WithinLimit(r);
  }

  lemma DropBooks(c: Config, s: State, id: nat)
    requires Books(c, s) && At(s, id, IpCheck)
    ensures Books(c, Drop(s, id))
  {
    IdleDropped(s.rooms, s.executions, id);
    ChargeBooked(s.executions, s.grants, s.charged, id);
  }

  lemma CheckIpBooks(c: Config, s: State, id: nat, allowed: bool)
    requires Books(c, s)
    ensures Books(c, CheckIp(s, id, allowed))
  {
    if At(s, id, IpCheck) && s.executions[id].room in s.rooms {
      var r := s.rooms[s.executions[id].room];
      if !allowed || !CanExecute(r) {
        DropBooks(c, s, id);
      } else {
        StartBooks(c, s, id, r.(executionInProgress := true));
      }
    }
  }

  lemma CheckIpAdmitted(s: State, id: nat, allowed: bool)
    requires Admitted(s.executions, s.limiter.log, s.used)
    ensures Admitted(CheckIp(s, id, allowed).executions, s.limiter.log, s.used)
  {
    if At(s, id, IpCheck) {
      AdmittedMoves(s.executions, s.limiter.log, s.used, id, Loading);
    }
  }

  lemma MovedBooks(c: Config, s: State, id: nat, pc: Pc, limiter: Limiter.State)
    requires Books(c, s) && id in s.executions && Busy(s.executions[id]) && pc != IpCheck
    requires Holding(s.executions[id]) == Holding(s.executions[id].(pc := pc))
    ensures Books(c, Goto(s, id, pc).(limiter := limiter))
  {
    BusyMoved(s.rooms, s.executions, id, pc);
    UnheldMoved(s.executions, s.grants, s.charged, id, pc);
  }

  lemma LoadFailedKeeps(c: Config, s: State, id: nat)
    requires Inv(c, s) && At(s, id, Loading)
    ensures Inv(c, Goto(s, id, Finishing(false)))
  {
    MovedBooks(c, s, id, Finishing(false), s.limiter);
    SettledWereAccepted(c.limiter, s.limiter);
    AdmittedEnters(s.executions, s.limiter.log, s.limiter.log, s.used, id);
  }

  lemma SubmitKeeps(c: Config, s: State, id: nat, pc: Pc)
    requires c.limiter.Valid() && Inv(c, s) && At(s, id, Loading)
    requires pc == if Limiter.Submitted(c.limiter, s.limiter, Op(id)).1 == Limiter.Rejected
                   then Finishing(false) else Waiting
    ensures Inv(c, Goto(s, id, pc).(limiter := Limiter.Submitted(c.limiter, s.limiter, Op(id)).0))
  {
    var limiter := Limiter.Submitted(c.limiter, s.limiter, Op(id)).0;
    MovedBooks(c, s, id, pc, limiter);
    SubmittedCalm(c.limiter, s.limiter, id);
    SettledWereAccepted(c.limiter, s.limiter);
    AdmittedEnters(s.executions, s.limiter.log, limiter.log, s.used, id);
  }

  lemma LoadKeeps(c: Config, s: State, id: nat, complete: bool)
    requires c.limiter.Valid() && Inv(c, s)
    ensures Inv(c, Load(c, s, id, complete))
  {
    if At(s, id, Loading) {
      if complete {
        SubmitKeeps(c, s, id, Load(c, s, id, true).executions[id].pc);
      } else {
        LoadFailedKeeps(c, s, id);
      }
    }
  }

  lemma GrantBooks(c: Config, s: State, id: nat, now: int)
    requires Books(c, s) && At(s, id, Waiting)
    ensures Books(c, Answer(c, s, id, now))
  {
    var allowed := Quota.ReserveMemory(s.daily, Store.Judge0, c.dailyLimit, now).1.allowed;
    BusyMoved(s.rooms, s.executions, id, Replied(allowed));
    if allowed {
      Granted(s.executions, s.grants, s.charged, id, Store.UtcDay(now));
      GrantPriced(s.rooms, s.grants, s.charged, id, Grant(s.executions[id].room, Store.UtcDay(now)));
      QuotaAfterGrant(c, s.daily, s.grants, now, id, s.executions[id].room);
    } else {
      UnheldMoved(s.executions, s.grants, s.charged, id, Replied(false));
      QuotaAfterReserve(c, s.daily, s.grants, now);
    }
  }

  lemma AnswerKeeps(c: Config, s: State, id: nat, now: int)
    requires Inv(c, s)
    ensures Inv(c, Answer(c, s, id, now))
  {
    if At(s, id, Waiting) && Op(id) in s.limiter.log.running {
      var allowed := Quota.ReserveMemory(s.daily, Store.Judge0, c.dailyLimit, now).1.allowed;
      GrantBooks(c, s, id, now);
      AdmittedMoves(s.executions, s.limiter.log, s.used, id, Replied(allowed));
    }
  }

  lemma LeaveKeeps(c: Config, s: State, id: nat, reserved: bool)
    requires c.limiter.Valid() && Inv(c, s)
    requires id in s.executions && Busy(s.executions[id]) && Op(id) in s.limiter.log.running
    requires reserved == Holding(s.executions[id])
    ensures Inv(c, Leave(c, s, id, reserved))
  {
    var limiter := Limiter.Settled(c.limiter, s.limiter, Op(id));
    MovedBooks(c, s, id, Finishing(reserved), limiter);
    SettledCalm(c.limiter, s.limiter, id);
    AdmittedLeaves(s.executions, s.limiter.log, limiter.log, s.used, id, reserved);
  }

  lemma FailReservationKeeps(c: Config, s: State, id: nat, counted: bool, now: int)
    requires c.limiter.Valid() && Inv(c, s)
    ensures Inv(c, FailReservation(c, s, id, counted, now))
  {
    if At(s, id, Waiting) && Op(id) in s.limiter.log.running {
      LeaveKeeps(c, s, id, false);
      QuotaAfterReserve(c, s.daily, s.grants, now);
    }
  }

  lemma ResumeKeeps(c: Config, s: State, id: nat)
    requires c.limiter.Valid() && Inv(c, s)
    ensures Inv(c, Resume(c, s, id))
  {
    if At(s, id, Replied(true)) {
      MovedBooks(c, s, id, Judging, s.limiter);
      AdmittedMoves(s.executions, s.limiter.log, s.used, id, Judging);
    } else if At(s, id, Replied(false)) {
      LeaveKeeps(c, s, id, false);
    }
  }

  lemma FinishReserved(c: Config, s: State, id: nat, r: RoomData)
    requires Books(c, s) && At(s, id, Finishing(true))
    requires var before := s.rooms[s.executions[id].room];
             r == before.(executionInProgress := false, submissionsUsed := before.submissionsUsed + 1)
    ensures Books(c, Drop(s, id).(rooms := s.rooms[s.executions[id].room := r], charged := s.charged + {id}))
  {
    BusyEnded(s.rooms, s.executions, id, r);
    ChargeBooked(s.executions, s.grants, s.charged, id);
    ChargePriced(s.rooms, s.grants, s.charged, id, r);
    assert WithinLimit(s.rooms[s.executions[id].room]) && WithinLimit(r);
  }

  lemma FinishUnreserved(c: Config, s: State, id: nat, r: RoomData)
    requires Books(c, s) && At(s, id, Finishing(false))
    requires r == s.rooms[s.executions[id].room].(executionInProgress := false)
    ensures Books(c, Drop(s, id).(rooms := s.rooms[s.executions[id].room := r]))
  {
    BusyEnded(s.rooms, s.executions, id, r);
    ChargeBooked(s.executions, s.grants, s.charged, id);
    RepricedRoom(s.rooms, s.grants, s.charged, s.executions[id].room, r);
    assert WithinLimit(s.rooms[s.executions[id].room]) && WithinLimit(r);
  }

  lemma FinishBooks(c: Config, s: State, id: nat)
    requires Books(c, s)
    ensures Books(c, Finish(s, id))
  {
    if id in s.executions && s.executions[id].pc.Finishing? {
      var r := Finish(s, id).rooms[s.executions[id].room];
      if s.executions[id].pc.reserved {
        FinishReserved(c, s, id, r);
      } else {
        FinishUnreserved(c, s, id, r);
      }
    }
  }

  lemma FinishAdmitted(s: State, id: nat)
    requires Admitted(s.executions, s.limiter.log, s.used)
    ensures Admitted(Finish(s, id).executions, s.limiter.log, s.used)
  {
  }

  lemma RoomBooks(c: Config, s: State, room: nat, r: RoomData)
    requires Books(c, s)
    requires if room in s.rooms then SameExecutionFields(s.rooms[room], r)
             else !r.executionInProgress && r.submissionsUsed == 0
    ensures Books(c, s.(rooms := s.rooms[room := r]))
  {
    RoomReplaced(s.rooms, s.executions, room, r);
    RepricedRoom(s.rooms, s.grants, s.charged, room, r);
  }

  lemma RoomEventKeeps(c: Config, s: State, e: Event)
    requires c.limiter.Valid() && Inv(c, s) && (e.RoomCreated? || e.RoomChanged?)
    ensures Inv(c, Step(c, s, e))
  {
    match e
    case RoomCreated(room, mode, submissionLimit, testCaseLimit, now) =>
      if room !in s.rooms { RoomBooks(c, s, room, NewRoom(mode, submissionLimit, testCaseLimit, now)); }
    case RoomChanged(room, to) =>
      if room in s.rooms && SameExecutionFields(s.rooms[room], to) { RoomBooks(c, s, room, to); }
  }

  lemma CheckIpKeeps(c: Config, s: State, id: nat, allowed: bool)
    requires Inv(c, s)
    ensures Inv(c, CheckIp(s, id, allowed))
  {
    CheckIpBooks(c, s, id, allowed);
    CheckIpAdmitted(s, id, allowed);
    CheckIpRest(s, id, allowed);
  }

  lemma CheckIpRest(s: State, id: nat, allowed: bool)
    ensures var t := CheckIp(s, id, allowed); t.limiter == s.limiter && t.grants == s.grants && t.used == s.used
  {
  }

  lemma FinishKeeps(c: Config, s: State, id: nat)
    requires Inv(c, s)
    ensures Inv(c, Finish(s, id))
  {
    FinishBooks(c, s, id);
    FinishAdmitted(s, id);
    FinishRest(s, id);
  }

  lemma FinishRest(s: State, id: nat)
    ensures var t := Finish(s, id); t.limiter == s.limiter && t.grants == s.grants && t.used == s.used
  {
  }

  lemma StartEventKeeps(c: Config, s: State, e: Event)
    requires c.limiter.Valid() && Inv(c, s) && (e.Requested? || e.IpChecked? || e.Loaded?)
    ensures Inv(c, Step(c, s, e))
  {
    match e
    case Requested(id, room) =>
      if id !in s.used && room in s.rooms { RequestKeeps(c, s, id, room); }
    case IpChecked(id, allowed) => CheckIpKeeps(c, s, id, allowed);
    case Loaded(id, complete) => LoadKeeps(c, s, id, complete);
  }

  lemma ReservationEventKeeps(c: Config, s: State, e: Event)
    requires c.limiter.Valid() && Inv(c, s) && (e.ReservationAnswered? || e.ReservationFailed?)
    ensures Inv(c, Step(c, s, e))
  {
    match e
    case ReservationAnswered(id, now) => AnswerKeeps(c, s, id, now);
    case ReservationFailed(id, counted, now) => FailReservationKeeps(c, s, id, counted, now);
  }

  lemma JudgingRuns(c: Config, s: State, id: nat)
    requires Inv(c, s) && At(s, id, Judging)
    ensures Busy(s.executions[id]) && Holding(s.executions[id]) && Op(id) in s.limiter.log.running
  {
  }

  lemma JudgedKeeps(c: Config, s: State, id: nat)
    requires c.limiter.Valid() && Inv(c, s)
    ensures Inv(c, Step(c, s, Judged(id)))
  {
    if At(s, id, Judging) {
      JudgingRuns(c, s, id);
      LeaveKeeps(c, s, id, true);
    }
  }

  lemma EndEventKeeps(c: Config, s: State, e: Event)
    requires c.limiter.Valid() && Inv(c, s) && (e.Resumed? || e.Judged? || e.Finished?)
    ensures Inv(c, Step(c, s, e))
  {
    match e
    case Resumed(id) => ResumeKeeps(c, s, id);
    case Judged(id) => JudgedKeeps(c, s, id);
    case Finished(id) => FinishKeeps(c, s, id);
  }

  lemma StepKeeps(c: Config, s: State, e: Event)
    requires c.limiter.Valid() && Inv(c, s)
    ensures Inv(c, Step(c, s, e))
  {
    if e.RoomCreated? || e.RoomChanged? {
      RoomEventKeeps(c, s, e);
    } else if e.Requested? || e.IpChecked? || e.Loaded? {
      StartEventKeeps(c, s, e);
    } else if e.ReservationAnswered? || e.ReservationFailed? {
      ReservationEventKeeps(c, s, e);
    } else {
      EndEventKeeps(c, s, e);
    }
  }

  lemma {:induction false} RunKeeps(c: Config, s: State, events: seq<Event>)
    requires c.limiter.Valid() && Inv(c, s)
    ensures Inv(c, Run(c, s, events))
    decreases |events|
  {
    if events != [] {
      StepKeeps(c, s, events[0]);
      RunKeeps(c, Step(c, s, events[0]), events[1..]);
    }
  }

  lemma EmptyIsFine(c: Config)
    requires c.limiter.Valid()
    ensures Inv(c, EMPTY)
  {
    forall day ensures GrantedOn(map[], day) == {} {
    }
  }
}
