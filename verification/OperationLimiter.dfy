/** The bounded-concurrency FIFO scheduler that guards Judge0, import and LLM calls.

    `Operation`, `State` and the functions on them are the specification; the class at the
    end updates its fields the way the source does, including the re-entrant call from the
    `finally` block of `execute` back into `drain`, and is proved equal to that specification.
 */
module OperationLimiter {

  /** A piece of submitted work. `throwsSync` says that calling it throws before its first
      `await`, so that its `finally` block runs while `drain` is still on the stack. */
  datatype Operation = Operation(id: nat, throwsSync: bool)

  datatype Outcome = Started | Queued | Rejected

  datatype Config = Config(maxInFlight: int, maxQueue: int) {
    predicate Valid() { 1 <= maxInFlight && 0 <= maxQueue }
  }

  /** What happened so far; `running` is the work that has started and not settled. */
  datatype Log = Log(
    accepted: seq<Operation>,
    rejected: seq<Operation>,
    started: seq<Operation>,
    running: multiset<Operation>,
    settled: seq<Operation>)
  {
    function Accept(op: Operation): Log { this.(accepted := accepted + [op]) }
    function Reject(op: Operation): Log { this.(rejected := rejected + [op]) }
    function Begin(op: Operation): Log {
      this.(started := started + [op], running := running + multiset{op})
    }
    function Finish(op: Operation): Log {
      this.(running := running - multiset{op}, settled := settled + [op])
    }
  }

  /** `active` and `queue` are the limiter's own fields. */
  datatype State = State(active: int, queue: seq<Operation>, log: Log)

  const INITIAL := State(0, [], Log([], [], [], multiset{}, []))

  function Begin(s: State, op: Operation): State {
    s.(active := s.active + 1, log := s.log.Begin(op))
  }

  function Finish(s: State, op: Operation): State {
    s.(active := s.active - 1, log := s.log.Finish(op))
  }

  /** `drain`, flattened: one loop, no re-entry. */
  function Drained(c: Config, s: State): State
    decreases |s.queue|
  {
    if s.active < c.maxInFlight && s.queue != [] then
      var op := s.queue[0];
      var begun := Begin(s.(queue := s.queue[1..]), op);
      if op.throwsSync then Drained(c, Finish(begun, op)) else Drained(c, begun)
    else
      s
  }

  /** `execute` up to the point where control returns to its caller. */
  function Executed(c: Config, s: State, op: Operation): State {
    var begun := Begin(s, op);
    if op.throwsSync then Drained(c, Finish(begun, op)) else begun
  }

  function Submitted(c: Config, s: State, op: Operation): (State, Outcome) {
    if s.active < c.maxInFlight then
      (Executed(c, s.(log := s.log.Accept(op)), op), Started)
    else if |s.queue| >= c.maxQueue then
      (s.(log := s.log.Reject(op)), Rejected)
    else
      (s.(queue := s.queue + [op], log := s.log.Accept(op)), Queued)
  }

  /** The awaited work of `op` settles: the `finally` block of `execute`. */
  function Settled(c: Config, s: State, op: Operation): State {
    Drained(c, Finish(s, op))
  }

  // ---------------------------------------------------------------------------------------
  // Runs
  // ---------------------------------------------------------------------------------------

  datatype Event = Submit(op: Operation) | Settle(op: Operation)

  /** Only running work can settle; any other `Settle` does not occur and changes nothing. */
  function Apply(c: Config, s: State, e: Event): State {
    match e
    case Submit(op) => Submitted(c, s, op).0
    case Settle(op) => if op in s.log.running then Settled(c, s, op) else s
  }

  function Run(c: Config, s: State, events: seq<Event>): State
    decreases |events|
  {
    if events == [] then s else Run(c, Apply(c, s, events[0]), events[1..])
  }

  /** What holds inside `drain`, where free capacity and queued work may meet. */
  ghost predicate Consistent(c: Config, s: State) {
    && 0 <= s.active <= c.maxInFlight
    && |s.queue| <= c.maxQueue
    && s.active == |s.log.running|
    && s.log.started + s.queue == s.log.accepted
    && multiset(s.log.started) == s.log.running + multiset(s.log.settled)
  }

  /** What holds whenever other code runs: no free slot is left while work waits. */
  ghost predicate Inv(c: Config, s: State) {
    && Consistent(c, s)
    && (s.queue != [] ==> s.active == c.maxInFlight)
  }

  /** History only grows. */
  ghost predicate Extends(s: State, t: State) {
    && s.log.accepted <= t.log.accepted
    && s.log.started <= t.log.started
    && s.log.settled <= t.log.settled
    && s.log.rejected <= t.log.rejected
  }

  /** The state in which `drain` goes on after starting the next piece of work. */
  function Advanced(s: State): State
    requires s.queue != []
  {
    var begun := Begin(s.(queue := s.queue[1..]), s.queue[0]);
    if s.queue[0].throwsSync then Finish(begun, s.queue[0]) else begun
  }

  lemma AdvancedKeeps(c: Config, s: State)
    requires Consistent(c, s) && s.active < c.maxInFlight && s.queue != []
    ensures Consistent(c, Advanced(s)) && Extends(s, Advanced(s))
  {
    var op := s.queue[0];
    assert s.queue == [op] + s.queue[1..];
    assert s.log.started + [op] + s.queue[1..] == s.log.started + s.queue;
    OneMore(s.log.running, s.log.started, s.log.settled, op);
  }

  lemma OneMore(running: multiset<Operation>, started: seq<Operation>, settled: seq<Operation>, op: Operation)
    requires multiset(started) == running + multiset(settled)
    ensures running + multiset{op} - multiset{op} == running
    ensures multiset(started + [op]) == running + multiset{op} + multiset(settled) == running + multiset(settled + [op])
  {
  }

  lemma {:induction false} DrainedKeeps(c: Config, s: State)
    requires c.Valid() && Consistent(c, s)
    ensures Inv(c, Drained(c, s)) && Extends(s, Drained(c, s))
    ensures Drained(c, s).log.accepted == s.log.accepted && Drained(c, s).log.rejected == s.log.rejected
    decreases |s.queue|
  {
    if s.active < c.maxInFlight && s.queue != [] {
      AdvancedKeeps(c, s);
      DrainedKeeps(c, Advanced(s));
      assert Drained(c, s) == Drained(c, Advanced(s));
    }
  }

  /** Draining twice is draining once: this is why the nested call is harmless. */
  lemma {:induction false} DrainedIdempotent(c: Config, s: State)
    ensures Drained(c, Drained(c, s)) == Drained(c, s)
    decreases |s.queue|
  {
    if s.active < c.maxInFlight && s.queue != [] {
      var op := s.queue[0];
      var begun := Begin(s.(queue := s.queue[1..]), op);
      DrainedIdempotent(c, if op.throwsSync then Finish(begun, op) else begun);
    }
  }

  lemma ExecutedKeeps(c: Config, s: State, op: Operation)
    requires c.Valid() && Inv(c, s) && s.active < c.maxInFlight
    ensures var t := Executed(c, s.(log := s.log.Accept(op)), op);
            Inv(c, t) && Extends(s, t) && t.log.accepted == s.log.accepted + [op] && t.log.rejected == s.log.rejected
  {
    var begun := Begin(s.(log := s.log.Accept(op)), op);
    assert begun.log.started + begun.queue == begun.log.accepted;
    if op.throwsSync {
      assert begun.log.running - multiset{op} == s.log.running;
      DrainedKeeps(c, Finish(begun, op));
    }
  }

  lemma SettledKeeps(c: Config, s: State, op: Operation)
    requires c.Valid() && Inv(c, s) && op in s.log.running
    ensures Inv(c, Settled(c, s, op)) && Extends(s, Settled(c, s, op))
  {
    var t := Finish(s, op);
    assert multiset(s.log.settled + [op]) == multiset(s.log.settled) + multiset{op};
    assert s.log.running == t.log.running + multiset{op};
    DrainedKeeps(c, t);
  }

  lemma SubmittedKeeps(c: Config, s: State, op: Operation)
    requires c.Valid() && Inv(c, s)
    ensures var t := Submitted(c, s, op).0; Inv(c, t) && Extends(s, t)
  {
    if s.active < c.maxInFlight {
      ExecutedKeeps(c, s, op);
    } else {
      assert s.log.started + (s.queue + [op]) == (s.log.started + s.queue) + [op];
    }
  }

  lemma ApplyKeeps(c: Config, s: State, e: Event)
    requires c.Valid() && Inv(c, s)
    ensures Inv(c, Apply(c, s, e)) && Extends(s, Apply(c, s, e))
  {
    match e
    case Submit(op) => SubmittedKeeps(c, s, op);
    case Settle(op) => if op in s.log.running { SettledKeeps(c, s, op); }
  }

  /** Every run keeps the capacity bounds, wastes no slot, starts work in acceptance order
      and loses or duplicates none of it. */
  lemma {:induction false} RunKeeps(c: Config, s: State, events: seq<Event>)
    requires c.Valid() && Inv(c, s)
    ensures Inv(c, Run(c, s, events)) && Extends(s, Run(c, s, events))
    decreases |events|
  {
    if events != [] {
      ApplyKeeps(c, s, events[0]);
      RunKeeps(c, Apply(c, s, events[0]), events[1..]);
    }
  }

  /** `started` followed by `queue` is the accepted operations in acceptance order, and the
      started ones are exactly those running or settled: accepted = settled + active + queued. */
  lemma FifoAndConservation(c: Config, events: seq<Event>)
    requires c.Valid()
    ensures var s := Run(c, INITIAL, events);
            && 0 <= s.active <= c.maxInFlight && |s.queue| <= c.maxQueue
            && (s.queue != [] ==> s.active == c.maxInFlight)
            && s.log.started + s.queue == s.log.accepted
            && multiset(s.log.accepted) == multiset(s.log.settled) + s.log.running + multiset(s.queue)
            && |s.log.accepted| == |s.log.settled| + s.active + |s.queue|
  {
    RunKeeps(c, INITIAL, events);
    var s := Run(c, INITIAL, events);
    assert |multiset(s.log.started)| == |s.log.running| + |multiset(s.log.settled)|;
  }

  /** A submission is turned away exactly when every slot and every queue place is taken. */
  lemma RejectedExactlyWhenFull(c: Config, events: seq<Event>, op: Operation)
    requires c.Valid()
    ensures var s := Run(c, INITIAL, events);
            Submitted(c, s, op).1 == Rejected <==> s.active + |s.queue| == c.maxInFlight + c.maxQueue
  {
    RunKeeps(c, INITIAL, events);
  }

  /** A submission starts at once exactly if a slot is free, and otherwise goes to the end of the
      queue or is turned away. */
  lemma OutcomeExactly(c: Config, events: seq<Event>, op: Operation)
    requires c.Valid()
    ensures var s := Run(c, INITIAL, events);
            var (t, outcome) := Submitted(c, s, op);
            && (outcome == Started <==> s.active < c.maxInFlight)
            && (outcome == Started ==> t.queue == [] && t.log.started == s.log.started + [op])
            && (outcome == Queued ==> t.queue == s.queue + [op] && t.log.started == s.log.started)
            && (outcome == Rejected ==> t == s.(log := t.log) && t.log == s.log.Reject(op))
  {
    RunKeeps(c, INITIAL, events);
  }

  ghost predicate NoneThrew(s: State) {
    forall op :: op in s.log.running ==> !op.throwsSync
  }

  lemma {:induction false} DrainedSettlesAtOnce(c: Config, s: State)
    requires NoneThrew(s)
    ensures NoneThrew(Drained(c, s))
    decreases |s.queue|
  {
    if s.active < c.maxInFlight && s.queue != [] {
      assert s.log.running + multiset{s.queue[0]} - multiset{s.queue[0]} == s.log.running;
      DrainedSettlesAtOnce(c, Advanced(s));
      assert Drained(c, s) == Drained(c, Advanced(s));
    }
  }

  lemma ApplySettlesAtOnce(c: Config, s: State, e: Event)
    requires NoneThrew(s)
    ensures NoneThrew(Apply(c, s, e))
  {
    match e
    case Submit(op) =>
      var begun := Begin(s.(log := s.log.Accept(op)), op);
      assert begun.log.running - multiset{op} == s.log.running;
      if op.throwsSync {
        DrainedSettlesAtOnce(c, Finish(begun, op));
      }
    case Settle(op) => DrainedSettlesAtOnce(c, Finish(s, op));
  }

  lemma {:induction false} RunSettlesAtOnce(c: Config, s: State, events: seq<Event>)
    requires NoneThrew(s)
    ensures NoneThrew(Run(c, s, events))
    decreases |events|
  {
    if events != [] {
      ApplySettlesAtOnce(c, s, events[0]);
      RunSettlesAtOnce(c, Apply(c, s, events[0]), events[1..]);
    }
  }

  /** Work that throws at once never holds a slot: in every run it has settled as soon as it has
      started. */
  lemma ThrowingWorkHoldsNoSlot(c: Config, events: seq<Event>, op: Operation)
    requires c.Valid() && op.throwsSync
    ensures var s := Run(c, INITIAL, events);
            op !in s.log.running && multiset(s.log.started)[op] == multiset(s.log.settled)[op]
  {
    RunKeeps(c, INITIAL, events);
    RunSettlesAtOnce(c, INITIAL, events);
  }

  /** The operation waiting at position `k` starts exactly at the (k+1)-th settlement after
      that moment: however the run goes on, it has been started if and only if more than `k`
      operations have settled since. Its place in the acceptance order is |started| + k. */
  lemma ExactWait(c: Config, before: seq<Event>, k: nat, after: seq<Event>)
    requires c.Valid()
    requires k < |Run(c, INITIAL, before).queue|
    ensures var s := Run(c, INITIAL, before);
            var t := Run(c, s, after);
            var place := |s.log.started| + k;
            && place < |t.log.accepted| && t.log.accepted[place] == s.queue[k]
            && (place < |t.log.started| <==> |t.log.settled| - |s.log.settled| > k)
            && (place < |t.log.started| ==> t.log.started[place] == s.queue[k])
  {
    var s := Run(c, INITIAL, before);
    var t := Run(c, s, after);
    RunKeeps(c, INITIAL, before);
    RunKeeps(c, s, after);
    assert s.log.accepted == s.log.started + s.queue;
    assert s.log.accepted[|s.log.started| + k] == s.queue[k];
    assert |multiset(s.log.started)| == |s.log.running| + |multiset(s.log.settled)|;
    assert |multiset(t.log.started)| == |t.log.running| + |multiset(t.log.settled)|;
    assert t.log.accepted == t.log.started + t.queue;
  }

  // ---------------------------------------------------------------------------------------
  // The limiter as the source writes it
  // ---------------------------------------------------------------------------------------

  datatype CreateResult = Created(limiter: OperationLimiter) | InvalidOptions(message: string)

  /** The source's constructor throws on bad options. */
  method Create(maxInFlight: int, maxQueue: int) returns (r: CreateResult)
    ensures r.Created? <==> Config(maxInFlight, maxQueue).Valid()
    ensures r.Created? ==> fresh(r.limiter) && r.limiter.config == Config(maxInFlight, maxQueue)
                           && r.limiter.Abstract() == INITIAL
  {
    if maxInFlight < 1 {
      return InvalidOptions("maxInFlight must be at least 1.");
    }
    if maxQueue < 0 {
      return InvalidOptions("maxQueue must be zero or greater.");
    }
    var limiter := new OperationLimiter(Config(maxInFlight, maxQueue));
    return Created(limiter);
  }

  class OperationLimiter {
    const config: Config
    var active: int
    var queue: seq<Operation>
    ghost var log: Log

    ghost function Abstract(): State
      reads this
    {
      State(active, queue, log)
    }

    constructor (config: Config)
      ensures this.config == config && Abstract() == INITIAL
    {
      this.config := config;
      active, queue, log := 0, [], INITIAL.log;
    }

    method Run(op: Operation) returns (outcome: Outcome)
      modifies this
      ensures (Abstract(), outcome) == Submitted(config, old(Abstract()), op)
    {
      if active < config.maxInFlight {
        log := log.Accept(op);
        Execute(op);
        return Started;
      }
      if |queue| >= config.maxQueue {
        log := log.Reject(op);
        return Rejected;
      }
      log := log.Accept(op);
      queue := queue + [op];
      return Queued;
    }

    /** Runs up to the first `await`; work that throws at once reaches the `finally` block. */
    method Execute(op: Operation)
      modifies this
      ensures Abstract() == Executed(config, old(Abstract()), op)
      ensures |queue| <= |old(queue)|
      decreases |queue|, 1
    {
      active, log := active + 1, log.Begin(op);
      if op.throwsSync {
        AfterWork(op);
      }
    }

    /** The `finally` block of `execute`. */
    method AfterWork(op: Operation)
      modifies this
      ensures Abstract() == Settled(config, old(Abstract()), op)
      ensures |queue| <= |old(queue)|
      decreases |queue|, 0, 1
    {
      active, log := active - 1, log.Finish(op);
      Drain();
    }

    /** Terminates although work that throws synchronously re-enters it. */
    method Drain()
      modifies this
      ensures Abstract() == Drained(config, old(Abstract()))
      ensures |queue| <= |old(queue)|
      decreases |queue|, 0, 0
    {
      while active < config.maxInFlight && |queue| > 0
        invariant |queue| <= |old(queue)|
        invariant Drained(config, Abstract()) == Drained(config, old(Abstract()))
        decreases |queue|
      {
        var next := queue[0];
        queue := queue[1..];
        ghost var shifted := Abstract();
        Execute(next);
        if next.throwsSync {
          DrainedIdempotent(config, Finish(Begin(shifted, next), next));
        }
      }
    }
  }
}
