/** The execution handler's writes to its room, its reservation and its local flag, as the
    source makes them: one object per call of `handleExecution`. `ExecutionLedger` proves what
    any number of such calls keep, however their segments interleave.
 */
module ExecutionHandler {
  import opened Common
  import opened RoomModel
  import DailyQuota
  import ReliabilityStore
  import Stores

  class ExecutionSession {
    const room: Room
    var submissionReserved: bool

    constructor (room: Room)
      ensures this.room == room && !submissionReserved
    {
      this.room := room;
      submissionReserved := false;
    }

    method CheckRoomExecutionLimit() returns (allowed: bool)
      ensures allowed == CanExecute(room.Abstract())
    {
      if room.problemId.None? {
        return false;
      }
      if room.executionInProgress {
        return false;
      }
      if room.submissionsUsed >= room.submissionLimit {
        return false;
      }
      return true;
    }

    /** After the per-client limit: the check of the room and the flag, with no await between. */
    method Start(ipAllowed: bool) returns (started: bool)
      modifies room`executionInProgress
      ensures started == (ipAllowed && CanExecute(old(room.Abstract())))
      ensures var r := old(room.Abstract());
              room.Abstract() == if started then r.(executionInProgress := true) else r
    {
      if !ipAllowed {
        return false;
      }
      var allowed := CheckRoomExecutionLimit();
      if !allowed {
        return false;
      }
      room.executionInProgress := true;
      return true;
    }

    /** Inside the limiter: the flag is set exactly when the store has granted the reservation. */
    method ReserveSubmission(store: Stores.MemoryReliabilityStore, dailyLimit: int, now: int) returns (granted: bool)
      modifies this`submissionReserved, store
      ensures var (daily, reservation) := DailyQuota.ReserveMemory(old(store.dailyCounters), ReliabilityStore.Judge0,
                                                                   dailyLimit, now);
              store.dailyCounters == daily && granted == reservation.allowed
      ensures submissionReserved == (old(submissionReserved) || granted)
    {
      var reservation := store.ReserveDailyQuota(ReliabilityStore.Judge0, dailyLimit, now);
      granted := reservation.allowed;
      if !granted {
        return;
      }
      submissionReserved := true;
    }

    /** The `finally` block: the room is charged exactly when a submission was reserved. */
    method Finish(now: int)
      modifies room
      ensures var r := old(room.Abstract());
              room.Abstract() == r.(executionInProgress := false,
                                    submissionsUsed := r.submissionsUsed + if submissionReserved then 1 else 0,
                                    lastActivityAt := now)
    {
      room.executionInProgress := false;
      if submissionReserved {
        room.submissionsUsed := room.submissionsUsed + 1;
      }
      room.lastActivityAt := now;
    }

    /** A call that nothing interrupts: whatever is refused or fails on the way, the flag is
        clear at the end, and the room and the day's counter move together or not at all. */
    method HandleExecution(ipAllowed: bool, complete: bool, capacity: bool,
                           store: Stores.MemoryReliabilityStore, dailyLimit: int, now: int)
      requires !submissionReserved
      modifies this, room, store
      ensures old(room.executionInProgress) == room.executionInProgress
      ensures room.submissionsUsed - old(room.submissionsUsed) == if submissionReserved then 1 else 0
      ensures var day := ReliabilityStore.UtcDay(now);
              DailyQuota.Used(store.dailyCounters, ReliabilityStore.Judge0, day)
              - DailyQuota.Used(old(store.dailyCounters), ReliabilityStore.Judge0, day)
                  == room.submissionsUsed - old(room.submissionsUsed)
      ensures submissionReserved <==>
                && ipAllowed && old(CanExecute(room.Abstract())) && complete && capacity
                && old(DailyQuota.Used(store.dailyCounters, ReliabilityStore.Judge0,
                                       ReliabilityStore.UtcDay(now))) < dailyLimit
    {
      var started := Start(ipAllowed);
      if !started {
        return;
      }
      if complete && capacity {
        var granted := ReserveSubmission(store, dailyLimit, now);
      }
      Finish(now);
    }
  }
}
