/** What holds of any number of executions in any number of rooms in every run: one at a time in a
    room, an account of every granted reservation, and no capacity beyond the limiter's.
 */
module LedgerHistory {
  import opened Common
  import opened RoomModel
  import opened ExecutionLedger
  import Limiter = OperationLimiter
  import Quota = DailyQuota
  import Store = ReliabilityStore

  /** Each room has at most one execution between setting the flag and the `finally` block, the
      flag says whether it has one, and what it has used plus the one in progress never exceeds
      its limit. */
  lemma OneExecutionPerRoom(c: Config, events: seq<Event>)
    requires c.limiter.Valid()
    ensures var s := Run(c, EMPTY, events);
            && (forall a, b :: (a in s.executions && b in s.executions && Busy(s.executions[a]) && Busy(s.executions[b])
                                && s.executions[a].room == s.executions[b].room) ==> a == b)
            && (forall room :: room in s.rooms ==> (s.rooms[room].executionInProgress <==> HasBusy(s.executions, room)))
            && (forall room :: room in s.rooms ==> WithinLimit(s.rooms[room]))
  {
    EmptyIsFine(c);
    RunKeeps(c, EMPTY, events);
  }

  function HoldingIds(execs: map<nat, Execution>): set<nat> {
    set id | id in execs && Holding(execs[id])
  }

  ghost function Pick(rooms: set<nat>): (room: nat)
    requires rooms != {}
    ensures room in rooms
  {
    var room :| room in rooms;
    room
  }

  /** What these rooms have used, added up. */
  ghost function TotalUsed(rooms: map<nat, RoomData>, some: set<nat>): int
    requires some <= rooms.Keys
    decreases |some|
  {
    if some == {} then 0
    else
      var room := Pick(some);
      rooms[room].submissionsUsed + TotalUsed(rooms, some - {room})
  }

  function ChargedToAny(grants: map<nat, Grant>, charged: set<nat>, some: set<nat>): set<nat> {
    set id | id in charged && id in grants && grants[id].room in some
  }

  lemma {:induction false} TotalIsCharged(rooms: map<nat, RoomData>, grants: map<nat, Grant>, charged: set<nat>,
                                          some: set<nat>)
    requires Priced(rooms, grants, charged) && some <= rooms.Keys
    ensures TotalUsed(rooms, some) == |ChargedToAny(grants, charged, some)|
    decreases |some|
  {
    if some == {} {
      assert ChargedToAny(grants, charged, some) == {};
    } else {
      var room := Pick(some);
      TotalIsCharged(rooms, grants, charged, some - {room});
      var one, rest := ChargedTo(grants, charged, room), ChargedToAny(grants, charged, some - {room});
      assert ChargedToAny(grants, charged, some) == one + rest && one !! rest;
    }
  }

  /** The ledger balances: every allowed reservation is charged exactly once, to the room whose
      execution made it, or is still held by that execution in flight, so that what all rooms
      have used and what is held add up to the grants. Nothing else is charged:
      not a rejection for lack of capacity, not a denied or failed reservation. And no day
      grants more than the daily limit. */
  lemma LedgerBalances(c: Config, events: seq<Event>)
    requires c.limiter.Valid()
    ensures var s := Run(c, EMPTY, events);
            && s.grants.Keys == s.charged + HoldingIds(s.executions) && s.charged !! HoldingIds(s.executions)
            && |s.grants.Keys| == |s.charged| + |HoldingIds(s.executions)|
            && (forall room :: room in s.rooms ==>
                  s.rooms[room].submissionsUsed == |ChargedTo(s.grants, s.charged, room)|)
            && (forall id :: id in s.charged ==> s.grants[id].room in s.rooms)
            && TotalUsed(s.rooms, s.rooms.Keys) + |HoldingIds(s.executions)| == |s.grants.Keys|
            && (forall id :: id in HoldingIds(s.executions) ==> s.grants[id].room == s.executions[id].room)
            && (forall day :: |GrantedOn(s.grants, day)| <= Max(0, c.dailyLimit))
  {
    EmptyIsFine(c);
    RunKeeps(c, EMPTY, events);
    var s := Run(c, EMPTY, events);
    forall day ensures |GrantedOn(s.grants, day)| <= Max(0, c.dailyLimit) {
      assert |GrantedOn(s.grants, day)| <= Quota.Used(s.daily, Store.Judge0, day);
    }
    assert s.grants.Keys == s.charged + HoldingIds(s.executions);
    TotalIsCharged(s.rooms, s.grants, s.charged, s.rooms.Keys);
    assert ChargedToAny(s.grants, s.charged, s.rooms.Keys) == s.charged;
  }

  /** An execution that has failed before a grant: it is on its way to the `finally` block, or
      through it, with nothing reserved. */
  ghost predicate Refused(s: State, id: nat) {
    && id in s.used && id !in s.grants && id !in s.charged
    && (id in s.executions ==> s.executions[id].pc == Finishing(false))
  }

  lemma EarlyKeepsRefused(c: Config, s: State, e: Event, id: nat)
    requires Refused(s, id) && (e.Requested? || e.IpChecked? || e.Loaded?)
    ensures Refused(Step(c, s, e), id)
  {
  }

  lemma ReservingKeepsRefused(c: Config, s: State, e: Event, id: nat)
    requires Refused(s, id) && (e.ReservationAnswered? || e.ReservationFailed? || e.Resumed?)
    ensures Refused(Step(c, s, e), id)
  {
  }

  lemma FinishKeepsRefused(s: State, other: nat, id: nat)
    requires Refused(s, id)
    ensures Refused(Finish(s, other), id)
  {
  }

  lemma StepKeepsRefused(c: Config, s: State, e: Event, id: nat)
    requires Refused(s, id)
    ensures Refused(Step(c, s, e), id)
  {
    match e
    case Finished(other) => FinishKeepsRefused(s, other, id);
    case RoomCreated(_, _, _, _, _) =>
    case RoomChanged(_, _) =>
    case Judged(_) =>
    case _ =>
      if e.Requested? || e.IpChecked? || e.Loaded? {
        EarlyKeepsRefused(c, s, e, id);
      } else {
        ReservingKeepsRefused(c, s, e, id);
      }
  }

  lemma {:induction false} RunKeepsRefused(c: Config, s: State, events: seq<Event>, id: nat)
    requires Refused(s, id)
    ensures Refused(Run(c, s, events), id)
    decreases |events|
  {
    if events != [] {
      StepKeepsRefused(c, s, events[0], id);
      RunKeepsRefused(c, Step(c, s, events[0]), events[1..], id);
    }
  }

  lemma RejectionRefuses(c: Config, s: State, id: nat)
    requires Inv(c, s) && At(s, id, Loading)
    requires Limiter.Submitted(c.limiter, s.limiter, Op(id)).1 == Limiter.Rejected
    ensures Refused(Load(c, s, id, true), id)
  {
  }

  lemma RejectionOnlyClears(c: Config, s: State, id: nat)
    requires At(s, id, Loading) && s.executions[id].room in s.rooms
    requires Limiter.Submitted(c.limiter, s.limiter, Op(id)).1 == Limiter.Rejected
    ensures var (t, room) := (Finish(Load(c, s, id, true), id), s.executions[id].room);
            && t.daily == s.daily
            && t.rooms == s.rooms[room := s.rooms[room].(executionInProgress := false)]
  {
  }

  /** An execution turned away for lack of capacity gets no grant and charges no room, however
      the run goes on; and its `finally` block clears the flag and nothing else. */
  lemma CapacityRejectionIsFree(c: Config, events: seq<Event>, id: nat, later: seq<Event>)
    requires c.limiter.Valid() && At(Run(c, EMPTY, events), id, Loading)
    requires Limiter.Submitted(c.limiter, Run(c, EMPTY, events).limiter, Op(id)).1 == Limiter.Rejected
    ensures var s := Run(c, EMPTY, events);
            var t := Load(c, s, id, true);
            && id !in Run(c, t, later).grants && id !in Run(c, t, later).charged
            && Finish(t, id).daily == s.daily && s.executions[id].room in s.rooms
            && Finish(t, id).rooms
               == s.rooms[s.executions[id].room := s.rooms[s.executions[id].room].(executionInProgress := false)]
  {
    EmptyIsFine(c);
    RunKeeps(c, EMPTY, events);
    var s := Run(c, EMPTY, events);
    assert s.executions[id].room in s.rooms;
    RejectionRefuses(c, s, id);
    RejectionOnlyClears(c, s, id);
    RunKeepsRefused(c, Load(c, s, id, true), later, id);
  }

  lemma {:induction false} DistinctInMultiset(ids: set<nat>, m: multiset<Limiter.Operation>)
    requires forall id :: id in ids ==> Op(id) in m
    ensures |ids| <= |m|
    decreases |ids|
  {
    if ids != {} {
      var id :| id in ids;
      DistinctInMultiset(ids - {id}, m - multiset{Op(id)});
    }
  }

  lemma WaitingIsNotLost(c: Limiter.Config, limiter: Limiter.State, op: Limiter.Operation)
    requires Limiter.Consistent(c, limiter) && op in limiter.log.accepted && op !in limiter.log.settled
    ensures op in limiter.queue || op in limiter.log.running
  {
    assert op in limiter.log.started + limiter.queue;
    if op !in limiter.queue {
      assert op in multiset(limiter.log.started);
    }
  }

  function JudgingIds(execs: map<nat, Execution>): set<nat> {
    set id | id in execs && execs[id].pc == Judging
  }

  lemma JudgingFits(c: Config, s: State)
    requires c.limiter.Valid() && Inv(c, s)
    ensures |JudgingIds(s.executions)| <= c.limiter.maxInFlight
  {
    forall id | id in JudgingIds(s.executions) ensures Op(id) in s.limiter.log.running {
      JudgingRuns(c, s, id);
    }
    DistinctInMultiset(JudgingIds(s.executions), s.limiter.log.running);
  }

  lemma WaitingIsKept(c: Config, s: State, id: nat)
    requires Inv(c, s) && id in s.executions && s.executions[id].pc == Waiting
    ensures Op(id) in s.limiter.queue || Op(id) in s.limiter.log.running
  {
    WaitingIsNotLost(c.limiter, s.limiter, Op(id));
  }

  /** At most `maxInFlight` executions are talking to Judge0 at any moment, and an execution
      handed to the limiter is in its queue or running: none is lost. */
  lemma JudgeCapacity(c: Config, events: seq<Event>)
    requires c.limiter.Valid()
    ensures var s := Run(c, EMPTY, events);
            && |JudgingIds(s.executions)| <= c.limiter.maxInFlight
            && forall id :: id in s.executions && s.executions[id].pc == Waiting ==>
                 Op(id) in s.limiter.queue || Op(id) in s.limiter.log.running
  {
    EmptyIsFine(c);
    RunKeeps(c, EMPTY, events);
    var s := Run(c, EMPTY, events);
    JudgingFits(c, s);
    forall id | id in s.executions && s.executions[id].pc == Waiting
      ensures Op(id) in s.limiter.queue || Op(id) in s.limiter.log.running
    {
      WaitingIsKept(c, s, id);
    }
  }
}
