/** What one execution comes to when nothing else happens meanwhile, from every state of the
    ledger: the exact conditions under which it is charged, and that in all other cases the room
    is as it was.
 */
module ExecutionOutcomes {
  import opened Common
  import opened RoomModel
  import opened ExecutionLedger
  import Limiter = OperationLimiter
  import Quota = DailyQuota
  import Store = ReliabilityStore

  /** The checks of a room before it runs code. */
  predicate Ready(r: RoomData) {
    r.problem != None && !r.executionInProgress && r.submissionsUsed + 1 <= r.submissionLimit
  }

  // ---------------------------------------------------------------------------------------
  // The stages of one execution
  // ---------------------------------------------------------------------------------------

  /** `u` is `s` with one execution of the room on its way, at `pc`. */
  ghost predicate Stage(s: State, u: State, id: nat, room: nat, pc: Pc)
    requires room in s.rooms
  {
    && id !in s.executions && !s.rooms[room].executionInProgress
    && u.executions == s.executions[id := Execution(room, pc)]
    && u.rooms == s.rooms[room := s.rooms[room].(executionInProgress := true)]
    && u.charged == s.charged
  }

  /** Its work holds a slot of the limiter, and giving that back leaves the limiter as in `s`. */
  ghost predicate HoldsSlot(c: Config, s: State, u: State, id: nat) {
    && Op(id) in u.limiter.log.running
    && var ended := Limiter.Settled(c.limiter, u.limiter, Op(id));
    ended.active == s.limiter.active && ended.log.running == s.limiter.log.running
  }

  ghost predicate SlotIsBack(s: State, u: State) {
    u.limiter.active == s.limiter.active && u.limiter.log.running == s.limiter.log.running
  }

  /** A request is taken up exactly for a room that is ready. */
  lemma RequestExactlyWhen(c: Config, s: State, id: nat, room: nat)
    requires id !in s.used && room in s.rooms
    ensures Step(c, s, Requested(id, room))
            == if Ready(s.rooms[room])
               then s.(executions := s.executions[id := Execution(room, IpCheck)], used := s.used + {id}) else s
  {
  }

  lemma AdmittedAfterTheCheck(c: Config, s: State, id: nat, room: nat, allowed: bool)
    requires id !in s.executions && room in s.rooms && Ready(s.rooms[room])
    ensures var asked := s.(executions := s.executions[id := Execution(room, IpCheck)], used := s.used + {id});
            Step(c, asked, IpChecked(id, allowed))
            == if allowed
               then s.(executions := s.executions[id := Execution(room, Loading)], used := s.used + {id},
                       rooms := s.rooms[room := s.rooms[room].(executionInProgress := true)])
               else s.(used := s.used + {id})
  {
    assert s.executions[id := Execution(room, IpCheck)] - {id} == s.executions;
    assert s.executions[id := Execution(room, IpCheck)][id := Execution(room, Loading)]
        == s.executions[id := Execution(room, Loading)];
  }

  /** From the request to the answer of the per-client limit. */
  function Entered(c: Config, s: State, id: nat, room: nat, allowed: bool): State {
    Step(c, Step(c, s, Requested(id, room)), IpChecked(id, allowed))
  }

  /** An execution gets in exactly when the room is ready and the client may run code; then the
      room's flag is up. Otherwise only the id is gone. */
  lemma EntersExactlyWhen(c: Config, s: State, id: nat, room: nat, allowed: bool)
    requires id !in s.used && id !in s.executions && room in s.rooms
    ensures Entered(c, s, id, room, allowed)
            == if Ready(s.rooms[room]) && allowed
               then s.(executions := s.executions[id := Execution(room, Loading)], used := s.used + {id},
                       rooms := s.rooms[room := s.rooms[room].(executionInProgress := true)])
               else if Ready(s.rooms[room]) then s.(used := s.used + {id})
               else s
  {
    RequestExactlyWhen(c, s, id, room);
    if Ready(s.rooms[room]) {
      AdmittedAfterTheCheck(c, s, id, room, allowed);
    }
  }

  /** Work that finds a free slot starts at once, and its end leaves the limiter as it was. */
  lemma PassesThrough(c: Limiter.Config, l: Limiter.State, id: nat)
    requires c.Valid() && Limiter.Inv(c, l) && l.active < c.maxInFlight
    ensures var (busy, outcome) := Limiter.Submitted(c, l, Op(id));
            && outcome == Limiter.Started && Op(id) in busy.log.running
            && Limiter.Settled(c, busy, Op(id)).active == l.active
            && Limiter.Settled(c, busy, Op(id)).log.running == l.log.running
  {
    assert l.queue == [];
    assert l.log.running + multiset{Op(id)} - multiset{Op(id)} == l.log.running;
  }

  lemma LoadedRuns(c: Config, s: State, u: State, id: nat, room: nat)
    requires room in s.rooms && Stage(s, u, id, room, Loading) && u.limiter == s.limiter
    requires c.limiter.Valid() && Limiter.Inv(c.limiter, s.limiter) && s.limiter.active < c.limiter.maxInFlight
    ensures var v := Step(c, u, Loaded(id, true));
            Stage(s, v, id, room, Waiting) && HoldsSlot(c, s, v, id) && v.grants == u.grants && v.daily == u.daily
  {
    PassesThrough(c.limiter, s.limiter, id);
    assert u.executions[id := Execution(room, Waiting)] == s.executions[id := Execution(room, Waiting)];
  }

  lemma IncompleteEnds(c: Config, s: State, u: State, id: nat, room: nat)
    requires room in s.rooms && Stage(s, u, id, room, Loading)
    ensures var v := Step(c, u, Loaded(id, false));
            Stage(s, v, id, room, Finishing(false)) && v.limiter == u.limiter && v.grants == u.grants
  {
    assert u.executions[id := Execution(room, Finishing(false))]
        == s.executions[id := Execution(room, Finishing(false))];
  }

  /** The reservation is granted exactly while the day has something left. */
  lemma AnswerDecides(c: Config, s: State, u: State, id: nat, room: nat, now: int)
    requires room in s.rooms && Stage(s, u, id, room, Waiting) && Op(id) in u.limiter.log.running
    ensures var v := Step(c, u, ReservationAnswered(id, now));
            var day := Store.UtcDay(now);
            var granted := Quota.Used(u.daily, Store.Judge0, day) < c.dailyLimit;
            && Stage(s, v, id, room, Replied(granted)) && v.limiter == u.limiter
            && v.grants == if granted then u.grants[id := Grant(room, day)] else u.grants
  {
    var granted := Quota.Used(u.daily, Store.Judge0, Store.UtcDay(now)) < c.dailyLimit;
    assert u.executions[id := Execution(room, Replied(granted))]
        == s.executions[id := Execution(room, Replied(granted))];
  }

  lemma GrantedIsJudged(c: Config, s: State, u: State, id: nat, room: nat)
    requires room in s.rooms && Stage(s, u, id, room, Replied(true))
    ensures var v := Step(c, u, Resumed(id));
            Stage(s, v, id, room, Judging) && v.limiter == u.limiter && v.grants == u.grants
  {
    assert u.executions[id := Execution(room, Judging)] == s.executions[id := Execution(room, Judging)];
  }

  lemma LeavesTheLimiter(c: Config, s: State, u: State, id: nat, room: nat, pc: Pc, reserved: bool)
    requires room in s.rooms && Stage(s, u, id, room, pc) && HoldsSlot(c, s, u, id)
    ensures var v := Leave(c, u, id, reserved);
            Stage(s, v, id, room, Finishing(reserved)) && SlotIsBack(s, v) && v.grants == u.grants
  {
    assert u.executions[id := Execution(room, Finishing(reserved))]
        == s.executions[id := Execution(room, Finishing(reserved))];
  }

  /** The end of an execution puts the room's flag down and charges exactly a reserved one. */
  lemma FinishSettles(c: Config, s: State, u: State, id: nat, room: nat, reserved: bool)
    requires room in s.rooms && Stage(s, u, id, room, Finishing(reserved))
    ensures var t := Step(c, u, Finished(id));
            var r := s.rooms[room];
            && t.executions == s.executions
            && t.rooms == (if reserved then s.rooms[room := r.(submissionsUsed := r.submissionsUsed + 1)] else s.rooms)
            && t.charged == (if reserved then s.charged + {id} else s.charged)
            && t.grants == u.grants && t.limiter == u.limiter
  {
    assert u.executions - {id} == s.executions;
  }

  // ---------------------------------------------------------------------------------------
  // From the reservation to the end
  // ---------------------------------------------------------------------------------------

  /** The store's answer at `now`, and what follows. */
  function Judgement(c: Config, u: State, id: nat, now: int): State {
    var answered := Step(c, u, ReservationAnswered(id, now));
    Step(c, Step(c, Step(c, answered, Resumed(id)), Judged(id)), Finished(id))
  }

  /** What the room, the books and the limiter are when an execution has ended: those of `s`,
      and, if it was charged, one submission and one grant more. */
  ghost predicate EndsAs(s: State, t: State, id: nat, room: nat, charge: Option<int>)
    requires room in s.rooms
  {
    var r := s.rooms[room];
    && t.executions == s.executions && SlotIsBack(s, t)
    && t.rooms == (if charge.Some? then s.rooms[room := r.(submissionsUsed := r.submissionsUsed + 1)] else s.rooms)
    && t.charged == (if charge.Some? then s.charged + {id} else s.charged)
    && t.grants == (if charge.Some? then s.grants[id := Grant(room, charge.value)] else s.grants)
  }

  lemma GrantedIsCharged(c: Config, s: State, u: State, id: nat, room: nat, now: int)
    requires room in s.rooms && Stage(s, u, id, room, Waiting) && HoldsSlot(c, s, u, id) && u.grants == s.grants
    requires Quota.Used(u.daily, Store.Judge0, Store.UtcDay(now)) < c.dailyLimit
    ensures EndsAs(s, Judgement(c, u, id, now), id, room, Some(Store.UtcDay(now)))
  {
    var answered := Step(c, u, ReservationAnswered(id, now));
    AnswerDecides(c, s, u, id, room, now);
    var judging := Step(c, answered, Resumed(id));
    GrantedIsJudged(c, s, answered, id, room);
    var judged := Step(c, judging, Judged(id));
    LeavesTheLimiter(c, s, judging, id, room, Judging, true);
    FinishSettles(c, s, judged, id, room, true);
  }

  lemma DeniedIsFree(c: Config, s: State, u: State, id: nat, room: nat, now: int)
    requires room in s.rooms && Stage(s, u, id, room, Waiting) && HoldsSlot(c, s, u, id) && u.grants == s.grants
    requires Quota.Used(u.daily, Store.Judge0, Store.UtcDay(now)) >= c.dailyLimit
    ensures EndsAs(s, Judgement(c, u, id, now), id, room, None)
  {
    var answered := Step(c, u, ReservationAnswered(id, now));
    AnswerDecides(c, s, u, id, room, now);
    var ended := Step(c, answered, Resumed(id));
    LeavesTheLimiter(c, s, answered, id, room, Replied(false), false);
    assert Step(c, ended, Judged(id)) == ended;
    FinishSettles(c, s, ended, id, room, false);
  }

  /** A store that fails, whether it had counted or not, charges nobody. */
  lemma FailedReservationIsFree(c: Config, s: State, u: State, id: nat, room: nat, counted: bool, now: int)
    requires room in s.rooms && Stage(s, u, id, room, Waiting) && HoldsSlot(c, s, u, id) && u.grants == s.grants
    ensures var failed := Step(c, u, ReservationFailed(id, counted, now));
            && EndsAs(s, Step(c, failed, Finished(id)), id, room, None)
            && Quota.Used(failed.daily, Store.Judge0, Store.UtcDay(now))
               <= Quota.Used(u.daily, Store.Judge0, Store.UtcDay(now)) + if counted then 1 else 0
  {
    LeavesTheLimiter(c, s, u, id, room, Waiting, false);
    FinishSettles(c, s, Step(c, u, ReservationFailed(id, counted, now)), id, room, false);
  }

  /** Nothing is left to do for an execution that ended before its reservation. */
  lemma OnlyTheEndIsLeft(c: Config, u: State, id: nat, now: int)
    requires id in u.executions ==> u.executions[id].pc.Finishing?
    ensures Judgement(c, u, id, now) == Step(c, u, Finished(id))
    ensures id !in u.executions ==> Judgement(c, u, id, now) == u && Step(c, u, Loaded(id, true)) == u
                                    && Step(c, u, Loaded(id, false)) == u
  {
  }

  lemma EndsAccordingly(c: Config, s: State, u: State, id: nat, room: nat, complete: bool, now: int)
    requires room in s.rooms && Stage(s, u, id, room, Loading)
    requires u.limiter == s.limiter && u.grants == s.grants && u.daily == s.daily
    requires c.limiter.Valid() && Limiter.Inv(c.limiter, s.limiter) && s.limiter.active < c.limiter.maxInFlight
    ensures var charged := complete && Quota.Used(s.daily, Store.Judge0, Store.UtcDay(now)) < c.dailyLimit;
            EndsAs(s, Judgement(c, Step(c, u, Loaded(id, complete)), id, now), id, room,
                   if charged then Some(Store.UtcDay(now)) else None)
  {
    var v := Step(c, u, Loaded(id, complete));
    if !complete {
      IncompleteEnds(c, s, u, id, room);
      OnlyTheEndIsLeft(c, v, id, now);
      FinishSettles(c, s, v, id, room, false);
    } else {
      LoadedRuns(c, s, u, id, room);
      if Quota.Used(s.daily, Store.Judge0, Store.UtcDay(now)) < c.dailyLimit {
        GrantedIsCharged(c, s, v, id, room, now);
      } else {
        DeniedIsFree(c, s, v, id, room, now);
      }
    }
  }

  lemma EndsFrom(c: Config, s: State, id: nat, room: nat, allowed: bool, complete: bool, now: int)
    requires c.limiter.Valid() && Limiter.Inv(c.limiter, s.limiter) && s.limiter.active < c.limiter.maxInFlight
    requires id !in s.used && id !in s.executions && room in s.rooms
    ensures var t := Judgement(c, Step(c, Entered(c, s, id, room, allowed), Loaded(id, complete)), id, now);
            var charged := && Ready(s.rooms[room]) && allowed && complete
                           && Quota.Used(s.daily, Store.Judge0, Store.UtcDay(now)) < c.dailyLimit;
            EndsAs(s, t, id, room, if charged then Some(Store.UtcDay(now)) else None)
  {
    var u := Entered(c, s, id, room, allowed);
    EntersExactlyWhen(c, s, id, room, allowed);
    if Ready(s.rooms[room]) && allowed {
      EndsAccordingly(c, s, u, id, room, complete, now);
    } else {
      OnlyTheEndIsLeft(c, u, id, now);
    }
  }

  /** In every run: an execution that finds a free slot and is not interrupted is charged, to its
      room and to the day, exactly when the room was ready, the client may run code, everything
      was there and the day's quota had something left. In particular the last submission of a
      room is not refused. In every other case room and books are as they were. */
  lemma ChargedExactlyWhen(c: Config, events: seq<Event>, id: nat, room: nat, allowed: bool, complete: bool, now: int)
    requires c.limiter.Valid()
    requires var s := Run(c, EMPTY, events);
             id !in s.used && room in s.rooms && s.limiter.active < c.limiter.maxInFlight
    ensures var s := Run(c, EMPTY, events);
            var t := Judgement(c, Step(c, Entered(c, s, id, room, allowed), Loaded(id, complete)), id, now);
            var charged := && Ready(s.rooms[room]) && allowed && complete
                           && Quota.Used(s.daily, Store.Judge0, Store.UtcDay(now)) < c.dailyLimit;
            EndsAs(s, t, id, room, if charged then Some(Store.UtcDay(now)) else None)
  {
    EmptyIsFine(c);
    RunKeeps(c, EMPTY, events);
    UnusedIsAbsent(c, Run(c, EMPTY, events), id);
    EndsFrom(c, Run(c, EMPTY, events), id, room, allowed, complete, now);
  }

  lemma UnusedIsAbsent(c: Config, s: State, id: nat)
    requires Inv(c, s) && id !in s.used
    ensures id !in s.executions && Limiter.Inv(c.limiter, s.limiter)
  {
  }
}
