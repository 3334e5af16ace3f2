/** The circuit breaker around Judge0 and Groq calls: a timed state machine into which
    completions of calls admitted long ago may still arrive.

    Time is an integer number of milliseconds carried by every event. The timer may fire at
    any moment from its due time on, never earlier, as `setTimeout` promises.
 */
module CircuitBreaker {
  import opened Common

  datatype CircuitState = Closed | Open | HalfOpen

  datatype Timer = NoTimer | DueAt(due: int)

  datatype Config = Config(failureThreshold: int, resetTimeoutMs: int) {
    /** A threshold below 1 behaves as 1: every failure of a closed circuit opens it. */
    function Threshold(): int { Max(1, failureThreshold) }
  }

  /** The closure variables of the source. */
  datatype Breaker = Breaker(state: CircuitState, consecutiveFailures: int, resetTimer: Timer)

  const INITIAL := Breaker(Closed, 0, NoTimer)

  function RecordSuccess(b: Breaker): Breaker {
    b.(consecutiveFailures := 0, state := if b.state == HalfOpen then Closed else b.state)
  }

  function RecordFailure(c: Config, b: Breaker, now: int): Breaker {
    var counted := b.(consecutiveFailures := b.consecutiveFailures + 1);
    if b.state == HalfOpen || (b.state == Closed && counted.consecutiveFailures >= c.failureThreshold) then
      counted.(state := Open, resetTimer := DueAt(now + c.resetTimeoutMs))
    else
      counted
  }

  function TimerFired(b: Breaker): Breaker {
    b.(state := HalfOpen, resetTimer := NoTimer)
  }

  // ---------------------------------------------------------------------------------------
  // Runs with any number of calls in flight
  // ---------------------------------------------------------------------------------------

  datatype Event =
    | Begin(call: nat, now: int)    // execute() is called
    | Succeed(call: nat, now: int)  // an admitted call resolves
    | Fail(call: nat, now: int)     // an admitted call rejects
    | Fire(now: int)                // the reset timer's callback
    | Reset(now: int)

  /** What counts for the failure streak, in order of occurrence. */
  datatype Mark = Success | Failure | ResetMark

  /** The calls admitted and not completed, and all calls ever admitted. */
  datatype System = System(breaker: Breaker, inFlight: set<nat>, begun: set<nat>, marks: seq<Mark>)

  const START := System(INITIAL, {}, {}, [])

  /** An event that cannot occur (a call that begins twice, a completion of a call not in
      flight, a timer that is absent or early) changes nothing. */
  function Apply(c: Config, s: System, e: Event): System {
    match e
    case Begin(call, _) =>
      if s.breaker.state == Open || call in s.begun then s
      else s.(inFlight := s.inFlight + {call}, begun := s.begun + {call})
    case Succeed(call, _) =>
      if call !in s.inFlight then s
      else s.(breaker := RecordSuccess(s.breaker), inFlight := s.inFlight - {call}, marks := s.marks + [Success])
    case Fail(call, now) =>
      if call !in s.inFlight then s
      else s.(breaker := RecordFailure(c, s.breaker, now), inFlight := s.inFlight - {call},
              marks := s.marks + [Failure])
    case Fire(now) =>
      if s.breaker.resetTimer.DueAt? && s.breaker.resetTimer.due <= now
      then s.(breaker := TimerFired(s.breaker)) else s
    case Reset(_) =>
      s.(breaker := INITIAL, marks := s.marks + [ResetMark])
  }

  function Run(c: Config, s: System, events: seq<Event>): System
    decreases |events|
  {
    if events == [] then s else Run(c, Apply(c, s, events[0]), events[1..])
  }

  /** The number of failures at the end of the history. */
  function Streak(marks: seq<Mark>): nat
    decreases |marks|
  {
    if marks == [] || marks[|marks| - 1] != Failure then 0 else 1 + Streak(marks[..|marks| - 1])
  }

  ghost predicate Consistent(c: Config, b: Breaker, streak: int) {
    && (b.resetTimer.DueAt? <==> b.state == Open)
    && (b.state == Closed ==> b.consecutiveFailures < c.Threshold())
    && b.consecutiveFailures == streak
  }

  ghost predicate Inv(c: Config, s: System) {
    Consistent(c, s.breaker, Streak(s.marks)) && s.inFlight <= s.begun
  }

  lemma {:induction false} RunAppend(c: Config, s: System, events: seq<Event>, e: Event)
    ensures Run(c, s, events + [e]) == Apply(c, Run(c, s, events), e)
    decreases |events|
  {
    if events == [] {
      assert [] + [e] == [e] && [e][1..] == [];
    } else {
      assert (events + [e])[0] == events[0] && (events + [e])[1..] == events[1..] + [e];
      RunAppend(c, Apply(c, s, events[0]), events[1..], e);
    }
  }

  lemma StreakAppend(marks: seq<Mark>, m: Mark)
    ensures Streak(marks + [m]) == if m == Failure then Streak(marks) + 1 else 0
  {
    assert (marks + [m])[..|marks|] == marks;
  }

  lemma {:induction false} StreakIsATailOfFailures(marks: seq<Mark>)
    ensures Streak(marks) <= |marks|
    ensures forall i :: |marks| - Streak(marks) <= i < |marks| ==> marks[i] == Failure
    ensures Streak(marks) < |marks| ==> marks[|marks| - Streak(marks) - 1] != Failure
    decreases |marks|
  {
    if marks != [] && marks[|marks| - 1] == Failure {
      StreakIsATailOfFailures(marks[..|marks| - 1]);
    }
  }

  lemma CompletionKeeps(c: Config, b: Breaker, streak: nat, now: int)
    requires Consistent(c, b, streak)
    ensures Consistent(c, RecordSuccess(b), 0) && Consistent(c, RecordFailure(c, b, now), streak + 1)
  {
  }

  lemma ApplyKeeps(c: Config, s: System, e: Event)
    requires Inv(c, s)
    ensures Inv(c, Apply(c, s, e))
  {
    match e
    case Succeed(_, now) =>
      StreakAppend(s.marks, Success);
      CompletionKeeps(c, s.breaker, Streak(s.marks), now);
    case Fail(_, now) =>
      StreakAppend(s.marks, Failure);
      CompletionKeeps(c, s.breaker, Streak(s.marks), now);
    case Reset(_) => StreakAppend(s.marks, ResetMark);
    case _ =>
  }

  lemma {:induction false} RunKeeps(c: Config, s: System, events: seq<Event>)
    requires Inv(c, s)
    ensures Inv(c, Run(c, s, events))
    decreases |events|
  {
    if events != [] {
      ApplyKeeps(c, s, events[0]);
      RunKeeps(c, Apply(c, s, events[0]), events[1..]);
    }
  }

  /** In every reachable state a timer is pending exactly when the circuit is open, a closed
      circuit has counted fewer failures than the threshold, and the counter is the number of
      failed completions since the last success or reset. */
  lemma EveryRun(c: Config, events: seq<Event>)
    ensures var s := Run(c, START, events);
            && (s.breaker.resetTimer.DueAt? <==> s.breaker.state == Open)
            && (s.breaker.state == Closed ==> s.breaker.consecutiveFailures < c.Threshold())
            && s.breaker.consecutiveFailures == Streak(s.marks)
  {
    RunKeeps(c, START, events);
  }

  lemma OpenHasTimer(c: Config, events: seq<Event>)
    ensures var s := Run(c, START, events);
            (s.breaker.resetTimer.DueAt? <==> s.breaker.state == Open) && s.inFlight <= s.begun
  {
    RunKeeps(c, START, events);
  }

  ghost predicate AllFailures(marks: seq<Mark>) {
    forall i :: 0 <= i < |marks| ==> marks[i] == Failure
  }

  lemma OpeningStep(c: Config, s: System, e: Event)
    requires Inv(c, s) && s.breaker.state == Closed
    ensures Apply(c, s, e).breaker.state == Open
            <==> e.Fail? && e.call in s.inFlight && Streak(s.marks) == c.Threshold() - 1
    ensures Apply(c, s, e).breaker.state == Open ==> Apply(c, s, e).marks == s.marks + [Failure]
  {
  }

  lemma {:induction false} FailuresInARow(marks: seq<Mark>, n: nat)
    requires Streak(marks) == n - 1
    ensures |marks + [Failure]| >= n && AllFailures((marks + [Failure])[|marks + [Failure]| - n..])
  {
    var more := marks + [Failure];
    StreakAppend(marks, Failure);
    StreakIsATailOfFailures(more);
    TailOf(more, n);
  }

  lemma TailOf(marks: seq<Mark>, n: nat)
    requires n <= |marks| && forall i :: |marks| - n <= i < |marks| ==> marks[i] == Failure
    ensures AllFailures(marks[|marks| - n..])
  {
    var tail := marks[|marks| - n..];
    forall i | 0 <= i < |tail| ensures tail[i] == Failure {
      assert tail[i] == marks[|marks| - n + i];
    }
  }

  /** A closed circuit opens exactly on the failure that completes `failureThreshold` failures
      in a row, with no success or reset among them. */
  lemma OpensExactlyAtThreshold(c: Config, events: seq<Event>, e: Event)
    requires Run(c, START, events).breaker.state == Closed
    ensures var s := Run(c, START, events);
            var t := Apply(c, s, e);
            && (t.breaker.state == Open
                <==> e.Fail? && e.call in s.inFlight && Streak(s.marks) == c.Threshold() - 1)
            && (t.breaker.state == Open ==>
                  && |t.marks| >= c.Threshold()
                  && AllFailures(t.marks[|t.marks| - c.Threshold()..]))
  {
    RunKeeps(c, START, events);
    var s := Run(c, START, events);
    OpeningStep(c, s, e);
    if Apply(c, s, e).breaker.state == Open {
      FailuresInARow(s.marks, c.Threshold());
    }
  }

  // ---------------------------------------------------------------------------------------
  // One event
  // ---------------------------------------------------------------------------------------

  /** A trial decides: a half-open circuit opens exactly on the failure of a call in flight, and
      then for a full period; it closes exactly on the success of one, or on a reset. */
  lemma TrialDecides(c: Config, events: seq<Event>, e: Event)
    requires Run(c, START, events).breaker.state == HalfOpen
    ensures var s := Run(c, START, events);
            var t := Apply(c, s, e).breaker;
            && (t.state == Open <==> e.Fail? && e.call in s.inFlight)
            && (t.state == Closed <==> e.Reset? || (e.Succeed? && e.call in s.inFlight))
            && t.resetTimer == if t.state == Open then DueAt(e.now + c.resetTimeoutMs) else NoTimer
  {
    RunKeeps(c, START, events);
  }

  /** An open circuit becomes half-open exactly when its timer fires, closes exactly on a reset,
      and otherwise stays as it is, timer included. */
  lemma LeavesOpenExactly(c: Config, events: seq<Event>, e: Event)
    requires Run(c, START, events).breaker.state == Open
    ensures var s := Run(c, START, events);
            var t := Apply(c, s, e).breaker;
            && s.breaker.resetTimer.DueAt?
            && (t.state == HalfOpen <==> e.Fire? && s.breaker.resetTimer.due <= e.now)
            && (t.state == Closed <==> e.Reset?)
            && (t.state == Open ==> t.resetTimer == s.breaker.resetTimer)
  {
    RunKeeps(c, START, events);
  }

  /** Nothing makes a closed circuit half-open; when it opens, it does so for a full period. */
  lemma ClosedOpensForAPeriod(c: Config, events: seq<Event>, e: Event)
    requires Run(c, START, events).breaker.state == Closed
    ensures var t := Apply(c, Run(c, START, events), e).breaker;
            && t.state != HalfOpen
            && t.resetTimer == if t.state == Open then DueAt(e.now + c.resetTimeoutMs) else NoTimer
  {
    RunKeeps(c, START, events);
  }

  /** Whatever the state, a failure counts once, a success or a reset starts the count again,
      and nothing else touches it. */
  lemma CountsExactly(c: Config, events: seq<Event>, e: Event)
    ensures var s := Run(c, START, events);
            Apply(c, s, e).breaker.consecutiveFailures
            == if e.Reset? || (e.Succeed? && e.call in s.inFlight) then 0
               else s.breaker.consecutiveFailures + if e.Fail? && e.call in s.inFlight then 1 else 0
  {
  }

  /** A call is in flight from its admission, which only an open circuit refuses, to its
      completion, and is never admitted twice. */
  lemma InFlightExactly(c: Config, events: seq<Event>, e: Event, call: nat)
    ensures var s := Run(c, START, events);
            call in Apply(c, s, e).inFlight
            <==> || (call in s.inFlight && e != Succeed(call, e.now) && e != Fail(call, e.now))
                 || (e == Begin(call, e.now) && s.breaker.state != Open && call !in s.begun)
    ensures var s := Run(c, START, events);
            call in Apply(c, s, e).begun
            <==> call in s.begun || (e == Begin(call, e.now) && s.breaker.state != Open)
  {
  }

  ghost predicate KeepsOpen(e: Event, due: int) {
    !e.Reset? && (e.Fire? ==> e.now < due)
  }

  lemma {:induction false} StaysOpen(c: Config, s: System, due: int, events: seq<Event>)
    requires s.breaker.state == Open && s.breaker.resetTimer == DueAt(due)
    requires forall e :: e in events ==> KeepsOpen(e, due)
    ensures Run(c, s, events).breaker.state == Open
    ensures Run(c, s, events).breaker.resetTimer == DueAt(due)
    ensures Run(c, s, events).inFlight <= s.inFlight && Run(c, s, events).begun == s.begun
    decreases |events|
  {
    if events != [] {
      assert KeepsOpen(events[0], due);
      StaysOpen(c, Apply(c, s, events[0]), due, events[1..]);
    }
  }

  /** An open period: it begins with `opening`, and during it nothing resets the breaker and
      the timer does not fire early. */
  ghost predicate OpenedBy(c: Config, before: seq<Event>, opening: Event, during: seq<Event>) {
    && Run(c, START, before).breaker.state != Open
    && Apply(c, Run(c, START, before), opening).breaker.state == Open
    && forall e :: e in during ==> KeepsOpen(e, opening.now + c.resetTimeoutMs)
  }

  /** Without `reset`, an open period ends exactly `resetTimeoutMs` after the failure that
      opened the circuit: whatever completions arrive meanwhile, the circuit stays open, admits
      no call and keeps the same due time; the timer cannot fire before it and, firing at it or
      later, makes the circuit half-open. */
  lemma OpenPeriod(c: Config, before: seq<Event>, opening: Event, during: seq<Event>, fired: int)
    requires OpenedBy(c, before, opening, during)
    ensures var due := opening.now + c.resetTimeoutMs;
            var t := Apply(c, Run(c, START, before), opening);
            var u := Run(c, t, during);
            && u.breaker.state == Open && u.breaker.resetTimer == DueAt(due)
            && u.inFlight <= t.inFlight && u.begun == t.begun
            && Apply(c, u, Fire(fired)).breaker.state == (if fired >= due then HalfOpen else Open)
  {
    RunKeeps(c, START, before);
    var t := Apply(c, Run(c, START, before), opening);
    StaysOpen(c, t, opening.now + c.resetTimeoutMs, during);
  }

  // ---------------------------------------------------------------------------------------
  // Recovery that was never tried
  // ---------------------------------------------------------------------------------------

  /** After `later`, the success of `call` takes the circuit from half-open to closed. */
  ghost predicate Closes(c: Config, u: System, later: seq<Event>, call: nat) {
    && Run(c, u, later).breaker.state == HalfOpen
    && call in Run(c, u, later).inFlight
    && forall now :: Apply(c, Run(c, u, later), Succeed(call, now)).breaker.state == Closed
  }

  /** A call begun before can leave, and never enters again. */
  lemma {:induction false} BegunOnce(c: Config, s: System, events: seq<Event>, call: nat)
    requires call in s.begun && call in Run(c, s, events).inFlight
    ensures call in s.inFlight
    decreases |events|
  {
    if events != [] {
      BegunOnce(c, Apply(c, s, events[0]), events[1..], call);
    }
  }

  lemma HalfOpenSuccessCloses(c: Config, u: System, later: seq<Event>, call: nat)
    requires call in Run(c, u, later).inFlight && Run(c, u, later).breaker.state == HalfOpen
    ensures Closes(c, u, later, call)
  {
  }

  lemma AtTheFiring(c: Config, before: seq<Event>, opening: Event, during: seq<Event>, fired: int)
    requires OpenedBy(c, before, opening, during) && fired >= opening.now + c.resetTimeoutMs
    ensures var earlier := Apply(c, Run(c, START, before), opening).begun;
            var u := Apply(c, Run(c, Apply(c, Run(c, START, before), opening), during), Fire(fired));
            u.breaker.state == HalfOpen && u.inFlight <= earlier == u.begun
  {
    OpenPeriod(c, before, opening, during, fired);
    RunKeeps(c, START, before);
    ApplyKeeps(c, Run(c, START, before), opening);
  }

  lemma ClosedFrom(c: Config, u: System)
    requires u.breaker.state == HalfOpen && u.inFlight <= u.begun
    ensures (exists later, call :: call in u.begun && Closes(c, u, later, call)) <==> u.inFlight != {}
    ensures forall later, call ::
              call in u.begun && call in Run(c, u, later).inFlight && Run(c, u, later).breaker.state == HalfOpen
              ==> call in u.inFlight && Closes(c, u, later, call)
  {
    forall later, call | call in u.begun && call in Run(c, u, later).inFlight ensures call in u.inFlight {
      BegunOnce(c, u, later, call);
    }
    if u.inFlight != {} {
      var call :| call in u.inFlight;
      assert Run(c, u, []) == u;
      HalfOpenSuccessCloses(c, u, [], call);
    }
    forall later, call | call in Run(c, u, later).inFlight && Run(c, u, later).breaker.state == HalfOpen
      ensures Closes(c, u, later, call)
    {
      HalfOpenSuccessCloses(c, u, later, call);
    }
  }

  /** As the timer fires, nothing in flight was begun after the circuit opened. From then on
      the circuit can be closed by the success of such an old call exactly when one is in
      flight at the firing; and it closes at every half-open moment at which one succeeds, no
      matter how many real trials are in flight beside it. */
  lemma ClosedByAStaleSuccess(c: Config, before: seq<Event>, opening: Event, during: seq<Event>, fired: int)
    requires OpenedBy(c, before, opening, during) && fired >= opening.now + c.resetTimeoutMs
    ensures var earlier := Apply(c, Run(c, START, before), opening).begun;
            var u := Apply(c, Run(c, Apply(c, Run(c, START, before), opening), during), Fire(fired));
            && u.inFlight <= earlier
            && ((exists later, call :: call in earlier && Closes(c, u, later, call)) <==> u.inFlight != {})
            && forall later, call ::
                 call in earlier && call in Run(c, u, later).inFlight && Run(c, u, later).breaker.state == HalfOpen
                 ==> call in u.inFlight && Closes(c, u, later, call)
  {
    AtTheFiring(c, before, opening, during, fired);
    ClosedFrom(c, Apply(c, Run(c, Apply(c, Run(c, START, before), opening), during), Fire(fired)));
  }

  /** Such a run: one call fails and opens the circuit, another of the same time succeeds after
      the timer has fired, and the circuit is closed with its only real trial still running. */
  lemma StaleSuccessCloses(timeout: nat)
    ensures var c := Config(1, timeout);
            var tripped := Apply(c, Apply(c, Apply(c, START, Begin(0, 0)), Begin(1, 0)), Fail(0, 0));
            var trying := Apply(c, Apply(c, tripped, Fire(timeout)), Begin(2, timeout));
            var closed := Apply(c, trying, Succeed(1, timeout));
            && tripped.breaker.state == Open && trying.breaker.state == HalfOpen
            && closed.breaker.state == Closed && closed.inFlight == {2}
  {
    var c := Config(1, timeout);
    var two := Apply(c, Apply(c, START, Begin(0, 0)), Begin(1, 0));
    assert two.inFlight == {0, 1};
    assert Apply(c, two, Fail(0, 0)).inFlight == {1};
  }

  // ---------------------------------------------------------------------------------------
  // The breaker as the source writes it
  // ---------------------------------------------------------------------------------------

  datatype Gate = Admitted | CircuitOpen

  class CircuitBreaker {
    const config: Config
    var state: CircuitState
    var consecutiveFailures: int
    var resetTimer: Timer
    /** The calls of `onStateChange`, in order. */
    ghost var notified: seq<(CircuitState, CircuitState)>
    /** What has happened to the breaker; `Valid` ties it to the variables. */
    ghost var history: seq<Event>

    ghost function Variables(): Breaker
      reads this
    {
      Breaker(state, consecutiveFailures, resetTimer)
    }

    ghost function Abstract(): System
      reads this
    {
      Run(config, START, history)
    }

    /** Every notification starts where the one before ended, none of them is a non-change,
        and the last one ends in the present state. */
    ghost predicate NotifiedChain()
      reads this
    {
      && (forall i :: 0 <= i < |notified| ==> notified[i].0 != notified[i].1)
      && (forall i, j :: 0 <= i < j < |notified| && j == i + 1 ==> notified[j].0 == notified[i].1)
      && (notified != [] ==> notified[0].0 == Closed)
      && state == if notified == [] then Closed else notified[|notified| - 1].1
    }

    ghost predicate Valid()
      reads this
    {
      NotifiedChain() && Abstract().breaker == Variables()
    }

    constructor (config: Config)
      ensures Valid() && this.config == config && Abstract() == START
    {
      this.config := config;
      state, consecutiveFailures, resetTimer := Closed, 0, NoTimer;
      notified, history := [], [];
    }

    method Transition(to: CircuitState)
      requires NotifiedChain()
      modifies this`state, this`notified
      ensures state == to && NotifiedChain()
    {
      var from := state;
      if from == to {
        return;
      }
      state := to;
      notified := notified + [(from, to)];
    }

    method ScheduleHalfOpen(now: int)
      modifies this`resetTimer
      ensures resetTimer == DueAt(now + config.resetTimeoutMs)
    {
      if resetTimer.DueAt? {
        resetTimer := NoTimer;
      }
      resetTimer := DueAt(now + config.resetTimeoutMs);
    }

    method OnSuccess()
      requires NotifiedChain()
      modifies this`state, this`consecutiveFailures, this`notified
      ensures Variables() == RecordSuccess(old(Variables())) && NotifiedChain()
      ensures consecutiveFailures == 0 && state == if old(state) == HalfOpen then Closed else old(state)
    {
      consecutiveFailures := 0;
      if state == HalfOpen {
        Transition(Closed);
      }
    }

    method OnFailure(now: int)
      requires NotifiedChain()
      modifies this`state, this`consecutiveFailures, this`resetTimer, this`notified
      ensures Variables() == RecordFailure(config, old(Variables()), now) && NotifiedChain()
      ensures consecutiveFailures == old(consecutiveFailures) + 1
      ensures old(state) == HalfOpen ==> state == Open && resetTimer == DueAt(now + config.resetTimeoutMs)
    {
      consecutiveFailures := consecutiveFailures + 1;
      if state == HalfOpen {
        Transition(Open);
        ScheduleHalfOpen(now);
        return;
      }
      if state == Closed && consecutiveFailures >= config.failureThreshold {
        Transition(Open);
        ScheduleHalfOpen(now);
      }
    }

    ghost method Record(e: Event)
      modifies this`history
      ensures history == old(history) + [e] && Abstract() == Apply(config, old(Abstract()), e)
    {
      RunAppend(config, START, history, e);
      history := history + [e];
    }

    /** The timer's callback. */
    method OnTimer(now: int)
      requires Valid() && resetTimer.DueAt? && resetTimer.due <= now
      modifies this`state, this`resetTimer, this`notified, this`history
      ensures Valid() && Abstract() == Apply(config, old(Abstract()), Fire(now))
    {
      resetTimer := NoTimer;
      Transition(HalfOpen);
      Record(Fire(now));
    }

    /** `execute` up to its await. A call turned away leaves no trace and is turned away only
        while a timer is pending that will let calls in again; an admitted one is in flight. */
    method Execute(call: nat, now: int) returns (gate: Gate)
      requires Valid() && call !in Abstract().begun
      modifies this`history
      ensures Valid() && Abstract() == Apply(config, old(Abstract()), Begin(call, now))
      ensures gate == CircuitOpen <==> state == Open
      ensures gate == CircuitOpen ==> Abstract() == old(Abstract()) && resetTimer.DueAt? && call !in Abstract().inFlight
      ensures gate == Admitted ==> call in Abstract().inFlight && resetTimer == NoTimer
    {
      OpenHasTimer(config, history);
      Record(Begin(call, now));
      return if state == Open then CircuitOpen else Admitted;
    }

    /** `execute` after its await. */
    method AfterCall(call: nat, succeeded: bool, now: int)
      requires Valid() && call in Abstract().inFlight
      modifies this
      ensures Valid()
      ensures Abstract() == Apply(config, old(Abstract()), if succeeded then Succeed(call, now) else Fail(call, now))
    {
      if succeeded {
        OnSuccess();
      } else {
        OnFailure(now);
      }
      Record(if succeeded then Succeed(call, now) else Fail(call, now));
    }

    method ResetBreaker(now: int)
      requires Valid()
      modifies this
      ensures Valid() && Abstract() == Apply(config, old(Abstract()), Reset(now))
    {
      if resetTimer.DueAt? {
        resetTimer := NoTimer;
      }
      consecutiveFailures := 0;
      Transition(Closed);
      Record(Reset(now));
    }
  }
}
