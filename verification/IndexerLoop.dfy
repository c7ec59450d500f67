/**
 The processing loop as code, for the staking tables: it receives messages, executes the statements of
 their blocks on the database and stores the checkpoint. Whatever it does is a run of the machine in
 `Processor`.

 What the loop does not decide itself is its input: which block in flight gets to execute its next
 statement, what the node and its storage answer when a block is begun, and where the process ends.
 */
module IndexerLoop {
  import opened Database
  import opened Outcomes
  import opened Processor
  import opened Schedules
  import opened Tables

  /**
   What happens while one message is handled. `polls` are the heights that get their turn, as long as
   they can use it; `fetch` is what a block begun at a height and a step is read to be, or nothing
   when the call fails, which ends the process; `crashAfter` is the number of steps after which the
   process crashes, if it gets there.
   */
  datatype Course = Course(polls: seq<nat>, fetch: (nat, nat) -> Option<Attempt<Stmt>>, crashAfter: Option<nat>)

  datatype Received = Message(numbers: seq<nat>, readable: bool, course: Course) | Behind | Closed

  /** Why the receive loop ended: the stream is used up, or closed; an empty message; a crash or an error. */
  datatype Ended = Drained | ChannelClosed | Panicked | Interrupted

  /** The height can use a turn: it can be begun, or has a statement left. */
  predicate CanUseTurn(parallel: nat, to: nat, next: nat, inFlight: map<nat, Flight<Stmt>>, n: nat) {
    && next <= n <= to && n < next + parallel
    && (n in inFlight ==> inFlight[n].executed < |inFlight[n].attempt.program|)
  }

  /** The height whose turn it is: the one polled, if it can use it, else the lowest one. */
  function TurnOf(parallel: nat, phase: Phase<Stmt>, polls: seq<nat>, time: nat): nat
    requires phase.Working?
  {
    if time < |polls| && CanUseTurn(parallel, phase.to, phase.next, phase.inFlight, polls[time]) then polls[time]
    else phase.next
  }

  /** The loop's next step, as the course has it; a crash also when what is begun cannot be fetched. */
  function DueStep(parallel: nat, s: State<Stmt>, course: Course, time: nat): Step<Stmt>
    requires s.phase.Working?
  {
    var next, inFlight := s.phase.next, s.phase.inFlight;
    if course.crashAfter == Some(time) then Crash
    else if next > s.phase.to then Finish
    else if next in inFlight && inFlight[next].executed == |inFlight[next].attempt.program| then Yield
    else
      var n := TurnOf(parallel, s.phase, course.polls, time);
      if n in inFlight then Execute(n)
      else
        match course.fetch(n, time)
        case None => Crash
        case Some(attempt) => Begin(n, attempt)
  }

  /** Every step is the one due. */
  ghost predicate AsDue(parallel: nat, start: State<Stmt>, steps: seq<Step<Stmt>>, course: Course) {
    steps == [] ||
    var k := |steps| - 1;
    && AsDue(parallel, start, steps[..k], course)
    && var so := Run(parallel, start, steps[..k]);
       so.Some? && so.value.phase.Working? && steps[k] == DueStep(parallel, so.value, course, k)
  }

  lemma {:induction false} OneMoreDue(
    parallel: nat, start: State<Stmt>, steps: seq<Step<Stmt>>, now: State<Stmt>, course: Course)
    requires AsDue(parallel, start, steps, course) && Run(parallel, start, steps) == Some(now) && now.phase.Working?
    requires Enabled(parallel, now, DueStep(parallel, now, course, |steps|))
    ensures var step := DueStep(parallel, now, course, |steps|);
            && AsDue(parallel, start, steps + [step], course)
            && Run(parallel, start, steps + [step]) == Some(Apply(parallel, now, step))
  {
    var step := DueStep(parallel, now, course, |steps|);
    assert (steps + [step])[..|steps|] == steps;
    RunOneMore(parallel, start, steps, now, step);
  }

  lemma {:induction false} DueIsDetermined(
    parallel: nat, start: State<Stmt>, a: seq<Step<Stmt>>, b: seq<Step<Stmt>>, course: Course)
    requires AsDue(parallel, start, a, course) && AsDue(parallel, start, b, course) && |a| <= |b|
    ensures b[..|a|] == a
    decreases |b|
  {
    if |a| < |b| {
      DueIsDetermined(parallel, start, a, b[..|b| - 1], course);
      assert b[..|b| - 1][..|a|] == b[..|a|];
    } else if a != [] {
      DueIsDetermined(parallel, start, a[..|a| - 1], b[..|b| - 1], course);
      WholePrefix(b[..|b| - 1]);
      WholePrefix(b);
      SameButLast(a, b);
    }
  }

  lemma WholePrefix(a: seq<Step<Stmt>>)
    ensures a[..|a|] == a
  {
  }

  lemma SameButLast(a: seq<Step<Stmt>>, b: seq<Step<Stmt>>)
    requires a != [] && |a| == |b| && a[..|a| - 1] == b[..|b| - 1] && a[|a| - 1] == b[|b| - 1]
    ensures a == b
  {
    assert a == a[..|a| - 1] + [a[|a| - 1]] && b == b[..|b| - 1] + [b[|b| - 1]];
  }

  lemma {:induction false} DueGoesOnFromWork(
    parallel: nat, start: State<Stmt>, steps: seq<Step<Stmt>>, course: Course, k: nat)
    requires AsDue(parallel, start, steps, course) && k < |steps|
    ensures Run(parallel, start, steps[..k]).Some? && Run(parallel, start, steps[..k]).value.phase.Working?
  {
    if k < |steps| - 1 {
      DueGoesOnFromWork(parallel, start, steps[..|steps| - 1], course, k);
      assert steps[..|steps| - 1][..k] == steps[..k];
    }
  }

  /** The range stays as it was received, and all steps are quiet as long as the loop is at work. */
  lemma {:induction false} DueAtWork(parallel: nat, start: State<Stmt>, steps: seq<Step<Stmt>>, course: Course)
    requires start.phase.Working? && AsDue(parallel, start, steps, course)
    requires Run(parallel, start, steps).Some? && Run(parallel, start, steps).value.phase.Working?
    ensures Run(parallel, start, steps).value.phase.to == start.phase.to
    ensures forall step | step in steps :: Quiet(step)
  {
    if steps != [] {
      var k := |steps| - 1;
      DueAtWork(parallel, start, steps[..k], course);
      assert steps == steps[..k] + [steps[k]];
    }
  }

  /** What is begun at a step is in the range, and what was fetched then. */
  lemma {:induction false} BegunIsFetched(
    parallel: nat, start: State<Stmt>, steps: seq<Step<Stmt>>, course: Course, i: nat)
    requires start.phase.Working? && AsDue(parallel, start, steps, course) && i < |steps| && steps[i].Begin?
    ensures steps[i].n <= start.phase.to && course.fetch(steps[i].n, i) == Some(steps[i].attempt)
  {
    if i < |steps| - 1 {
      BegunIsFetched(parallel, start, steps[..|steps| - 1], course, i);
    } else {
      DueAtWork(parallel, start, steps[..i], course);
    }
  }

  // Every prompt run is some course's

  /** The lowest block's result can be taken. */
  predicate HeadReady(s: State<Stmt>) {
    && s.phase.Working? && s.phase.next in s.phase.inFlight
    && s.phase.inFlight[s.phase.next].executed == |s.phase.inFlight[s.phase.next].attempt.program|
  }

  /** The steps handle one message, or part of it, and a result that is ready is taken before anything else is done. */
  ghost predicate Prompt(parallel: nat, start: State<Stmt>, steps: seq<Step<Stmt>>) {
    steps == [] ||
    var k := |steps| - 1;
    && Prompt(parallel, start, steps[..k])
    && var so := Run(parallel, start, steps[..k]);
       && so.Some? && so.value.phase.Working? && Enabled(parallel, so.value, steps[k])
       && (HeadReady(so.value) ==> steps[k].Yield? || steps[k].Crash?)
  }

  /** The height a step begins or executes a statement of. */
  function PollOf(step: Step<Stmt>): nat {
    match step
    case Begin(n, _) => n
    case Execute(n) => n
    case _ => 0
  }

  /** The course that has these steps in mind. */
  function CourseOf(steps: seq<Step<Stmt>>): Course {
    Course(
      seq(|steps|, i requires 0 <= i < |steps| => PollOf(steps[i])),
      (n: nat, time: nat) =>
        if time < |steps| && steps[time].Begin? then Some(steps[time].attempt) else None,
      if steps != [] && steps[|steps| - 1].Crash? then Some(|steps| - 1) else None)
  }

  lemma {:induction false} WindowAtWork(parallel: nat, start: State<Stmt>, steps: seq<Step<Stmt>>)
    requires InWindow(parallel, start.phase) && Run(parallel, start, steps).Some?
    ensures InWindow(parallel, Run(parallel, start, steps).value.phase)
  {
    if steps != [] {
      var init := steps[..|steps| - 1];
      WindowAtWork(parallel, start, init);
      WindowStep(parallel, Run(parallel, start, init).value, steps[|steps| - 1]);
    }
  }

  /** A height that is polled and can use its turn gets it. */
  lemma {:induction false} DueAsIntended(parallel: nat, s: State<Stmt>, steps: seq<Step<Stmt>>, time: nat)
    requires s.phase.Working? && InWindow(parallel, s.phase) && time < |steps|
    requires Enabled(parallel, s, steps[time]) && (HeadReady(s) ==> steps[time].Yield? || steps[time].Crash?)
    requires steps[time].Crash? ==> time == |steps| - 1
    ensures DueStep(parallel, s, CourseOf(steps), time) == steps[time]
  {
    match steps[time]
    case Begin(n, attempt) =>
      assert CourseOf(steps).polls[time] == n;
      assert CanUseTurn(parallel, s.phase.to, s.phase.next, s.phase.inFlight, n);
    case Execute(n) =>
      assert CourseOf(steps).polls[time] == n;
      assert CanUseTurn(parallel, s.phase.to, s.phase.next, s.phase.inFlight, n);
    case _ =>
  }

  lemma {:induction false} CrashIsLast(parallel: nat, start: State<Stmt>, steps: seq<Step<Stmt>>, i: nat)
    requires Prompt(parallel, start, steps) && i < |steps| && steps[i].Crash?
    ensures i == |steps| - 1
  {
    if i < |steps| - 1 {
      CrashIsLast(parallel, start, steps[..|steps| - 1], i);
    }
  }

  lemma {:induction false} PromptIsDueUpTo(parallel: nat, start: State<Stmt>, steps: seq<Step<Stmt>>, k: nat)
    requires start.phase.Working? && InWindow(parallel, start.phase)
    requires Prompt(parallel, start, steps) && k <= |steps|
    requires forall i | 0 <= i < |steps| && steps[i].Crash? :: i == |steps| - 1
    ensures Prompt(parallel, start, steps[..k]) && AsDue(parallel, start, steps[..k], CourseOf(steps))
  {
    PromptPrefix(parallel, start, steps, k);
    if k > 0 {
      PromptIsDueUpTo(parallel, start, steps, k - 1);
      assert steps[..k][..k - 1] == steps[..k - 1];
      WindowAtWork(parallel, start, steps[..k - 1]);
      DueAsIntended(parallel, Run(parallel, start, steps[..k - 1]).value, steps, k - 1);
    }
  }

  lemma {:induction false} PromptPrefix(parallel: nat, start: State<Stmt>, steps: seq<Step<Stmt>>, k: nat)
    requires Prompt(parallel, start, steps) && k <= |steps|
    ensures Prompt(parallel, start, steps[..k])
    decreases |steps|
  {
    if k == |steps| {
      assert steps[..k] == steps;
    } else {
      PromptPrefix(parallel, start, steps[..|steps| - 1], k);
      assert steps[..|steps| - 1][..k] == steps[..k];
    }
  }

  /**
   Whichever of the next `parallel` blocks execute a statement, in any interleaving, there is a course on which
   the loop takes exactly these steps, as long as results are taken when they are ready.
   */
  lemma {:induction false} EveryPromptRunIsDue(parallel: nat, start: State<Stmt>, steps: seq<Step<Stmt>>)
    returns (course: Course)
    requires start.phase.Working? && start.phase.inFlight == map[] && Prompt(parallel, start, steps)
    ensures AsDue(parallel, start, steps, course)
  {
    course := CourseOf(steps);
    forall i | 0 <= i < |steps| && steps[i].Crash?
      ensures i == |steps| - 1
    {
      CrashIsLast(parallel, start, steps, i);
    }
    PromptIsDueUpTo(parallel, start, steps, |steps|);
    assert steps[..|steps|] == steps;
  }

  // A bound on the steps left

  /** How many heights of `lo` to `top - 1` have not been begun. */
  function Unbegun(inFlight: map<nat, Flight<Stmt>>, lo: nat, top: nat): nat
    decreases top - lo
  {
    if lo >= top then 0 else Unbegun(inFlight, lo + 1, top) + if lo in inFlight then 0 else 1
  }

  function StatementsLeft(flight: Flight<Stmt>): nat {
    if flight.executed < |flight.attempt.program| then |flight.attempt.program| - flight.executed else 0
  }

  /** How many statements those that have been begun have left. */
  function Left(inFlight: map<nat, Flight<Stmt>>, lo: nat, top: nat): nat
    decreases top - lo
  {
    if lo >= top then 0
    else Left(inFlight, lo + 1, top) + if lo in inFlight then StatementsLeft(inFlight[lo]) else 0
  }

  /** Fewer heights to begin, or as many and fewer statements left. */
  ghost predicate Shrinks(before: map<nat, Flight<Stmt>>, after: map<nat, Flight<Stmt>>, lo: nat, top: nat) {
    || Unbegun(after, lo, top) < Unbegun(before, lo, top)
    || (Unbegun(after, lo, top) == Unbegun(before, lo, top) && Left(after, lo, top) < Left(before, lo, top))
  }

  lemma {:induction false} UpdateElsewhere(
    inFlight: map<nat, Flight<Stmt>>, lo: nat, top: nat, n: nat, flight: Flight<Stmt>)
    requires n < lo
    ensures Unbegun(inFlight[n := flight], lo, top) == Unbegun(inFlight, lo, top)
    ensures Left(inFlight[n := flight], lo, top) == Left(inFlight, lo, top)
    decreases top - lo
  {
    if lo < top {
      UpdateElsewhere(inFlight, lo + 1, top, n, flight);
    }
  }

  lemma {:induction false} UpdateWithin(
    inFlight: map<nat, Flight<Stmt>>, lo: nat, top: nat, n: nat, flight: Flight<Stmt>)
    requires lo <= n < top
    ensures Unbegun(inFlight[n := flight], lo, top) == Unbegun(inFlight, lo, top) - if n in inFlight then 0 else 1
    ensures n in inFlight ==>
              Left(inFlight[n := flight], lo, top)
              == Left(inFlight, lo, top) - StatementsLeft(inFlight[n]) + StatementsLeft(flight)
    decreases top - lo
  {
    if lo == n {
      UpdateElsewhere(inFlight, lo + 1, top, n, flight);
    } else {
      UpdateWithin(inFlight, lo + 1, top, n, flight);
    }
  }

  class Indexer {
    const db: Db
    const checkpointKey: string
    const parallel: nat
    /** The statements executed so far, and the attempt last finished at each height. */
    ghost var trace: seq<Ran<Stmt>>
    ghost var done: map<nat, Attempt<Stmt>>

    constructor (db: Db, checkpointKey: string, parallel: nat)
      requires db.Staking() == EMPTY
      ensures this.db == db && this.checkpointKey == checkpointKey && this.parallel == parallel
      ensures trace == [] && done == map[] && Valid()
    {
      this.db, this.checkpointKey, this.parallel := db, checkpointKey, parallel;
      trace, done := [], map[];
    }

    /** The tables are those the executed statements leave. */
    ghost predicate Valid()
      reads this, db
    {
      db.Staking() == TablesAfter(trace)
    }

    ghost function Stored(): Option<nat>
      reads db
    {
      if checkpointKey in db.metadata then Some(db.metadata[checkpointKey]) else None
    }

    /** The machine's state between messages. */
    ghost function AtRest(): State<Stmt>
      reads this, db
    {
      State(Stored(), Idle, trace, done)
    }

    /** While a message is handled. */
    ghost function AtWork(range: Range, next: nat, inFlight: map<nat, Flight<Stmt>>): State<Stmt>
      reads this, db
    {
      State(Stored(), Working(range.from, range.to, next, inFlight), trace, done)
    }

    method ReadCheckpoint(readable: bool) returns (last: nat)
      ensures last == Processor.ReadCheckpoint(AtRest(), readable)
      ensures last == if readable && checkpointKey in db.metadata then db.metadata[checkpointKey] else 0
    {
      var stored := db.GetLastProcessedBlock(checkpointKey);
      last := if readable && stored.Some? then stored.value else 0;
    }

    /** Takes the lowest block's result, and stores the checkpoint at every hundredth block. */
    method TakeResult(range: Range, next: nat, inFlight: map<nat, Flight<Stmt>>)
      returns (left: map<nat, Flight<Stmt>>)
      requires Valid() && Enabled(parallel, AtWork(range, next, inFlight), Yield)
      modifies this`done, db`metadata
      ensures Valid()
      ensures AtWork(range, next + 1, left) == Apply(parallel, old(AtWork(range, next, inFlight)), Yield)
    {
      if next % CHECKPOINT_PROCESSED_BLOCK == 0 {
        db.SetLastProcessedBlock(checkpointKey, next);
      }
      done := done[next := inFlight[next].attempt];
      left := inFlight - {next};
    }

    /** Executes the next statement of a block in flight. */
    method ExecuteNext(range: Range, next: nat, inFlight: map<nat, Flight<Stmt>>, n: nat)
      returns (after: map<nat, Flight<Stmt>>)
      requires Valid() && Enabled(parallel, AtWork(range, next, inFlight), Execute(n)) && n <= range.to
      modifies this`trace, db`deposits, db`withdrawals, db`nominators, db`operators, db`sharePrices
      ensures Valid()
      ensures AtWork(range, next, after) == Apply(parallel, old(AtWork(range, next, inFlight)), Execute(n))
      ensures Shrinks(inFlight, after, next, range.to + 1)
    {
      var flight := inFlight[n];
      db.Execute(flight.attempt.program[flight.executed]);
      ghost var longer := trace + [Ran(n, flight.executed, flight.attempt.program)];
      assert longer[..|longer| - 1] == trace;
      trace := longer;
      UpdateWithin(inFlight, next, range.to + 1, n, flight.(executed := flight.executed + 1));
      after := inFlight[n := flight.(executed := flight.executed + 1)];
    }

    /** One turn: the height whose turn it is executes a statement or is begun, if it can be fetched. */
    method TakeTurn(range: Range, next: nat, inFlight: map<nat, Flight<Stmt>>, course: Course, time: nat)
      returns (step: Step<Stmt>, after: map<nat, Flight<Stmt>>)
      requires Valid() && CanUseTurn(parallel, range.to, next, inFlight, next)
      requires course.crashAfter != Some(time)
      modifies this`trace, db`deposits, db`withdrawals, db`nominators, db`operators, db`sharePrices
      ensures Valid()
      ensures Took(old(AtWork(range, next, inFlight)), course, time, step, AtWork(range, next, after))
      ensures !step.Crash? ==> Shrinks(inFlight, after, next, range.to + 1)
    {
      var n := next;
      if time < |course.polls| && CanUseTurn(parallel, range.to, next, inFlight, course.polls[time]) {
        n := course.polls[time];
      }
      if n in inFlight {
        after := ExecuteNext(range, next, inFlight, n);
        return Execute(n), after;
      }
      var fetched := course.fetch(n, time);
      if fetched.None? {
        return Crash, inFlight;
      }
      after := inFlight[n := Flight(fetched.value, 0)];
      UpdateWithin(inFlight, next, range.to + 1, n, Flight(fetched.value, 0));
      step := Begin(n, fetched.value);
    }

    /** The step that was due has been taken; a crash is only found to be due. */
    ghost predicate Took(before: State<Stmt>, course: Course, time: nat, step: Step<Stmt>, after: State<Stmt>) {
      && before.phase.Working? && step == DueStep(parallel, before, course, time) && Enabled(parallel, before, step)
      && after == if step.Crash? then before else Apply(parallel, before, step)
    }

    /** One step of the inner loop: the lowest block's result when it is ready, else a turn. */
    method OneStep(range: Range, next: nat, inFlight: map<nat, Flight<Stmt>>, course: Course, time: nat)
      returns (step: Step<Stmt>, after: map<nat, Flight<Stmt>>, next': nat)
      requires Valid() && parallel > 0 && next <= range.to
      requires next in inFlight ==> inFlight[next].executed <= |inFlight[next].attempt.program|
      modifies this`trace, this`done, db`metadata
      modifies db`deposits, db`withdrawals, db`nominators, db`operators, db`sharePrices
      ensures Valid() && next <= next' <= next + 1
      ensures Took(old(AtWork(range, next, inFlight)), course, time, step, AtWork(range, next', after))
      ensures !step.Crash? && next' == next ==> Shrinks(inFlight, after, next, range.to + 1)
    {
      if course.crashAfter == Some(time) {
        return Crash, inFlight, next;
      }
      if next in inFlight && inFlight[next].executed == |inFlight[next].attempt.program| {
        after := TakeResult(range, next, inFlight);
        return Yield, after, next + 1;
      }
      step, after := TakeTurn(range, next, inFlight, course, time);
      next' := next;
    }

    /** So far every step was the one due. */
    ghost predicate CameTo(start: State<Stmt>, steps: seq<Step<Stmt>>, course: Course, now: State<Stmt>) {
      Run(parallel, start, steps) == Some(now) && AsDue(parallel, start, steps, course)
    }

    /** The inner loop over a range, up to where all results are taken, or where a crash is due. */
    method ProcessRange(range: Range, course: Course)
      returns (finished: bool, ghost steps: seq<Step<Stmt>>, ghost inFlight: map<nat, Flight<Stmt>>, next: nat)
      requires Valid() && parallel > 0 && range.from <= range.to && Consistent(AtRest())
      modifies this`trace, this`done, db`metadata
      modifies db`deposits, db`withdrawals, db`nominators, db`operators, db`sharePrices
      ensures Valid() && Consistent(AtRest())
      ensures CameTo(old(AtWork(range, range.from, map[])), steps, course, AtWork(range, next, inFlight))
      ensures DueStep(parallel, AtWork(range, next, inFlight), course, |steps|) == if finished then Finish else Crash
      ensures finished ==> next == range.to + 1
    {
      ghost var start := AtWork(range, range.from, map[]);
      var flying: map<nat, Flight<Stmt>> := map[];
      var time := 0;
      next, steps, inFlight := range.from, [], map[];
      while next <= range.to
        invariant Valid() && Consistent(AtWork(range, next, flying))
        invariant range.from <= next <= range.to + 1 && inFlight == flying && time == |steps|
        invariant CameTo(start, steps, course, AtWork(range, next, flying))
        decreases range.to + 1 - next, Unbegun(flying, next, range.to + 1), Left(flying, next, range.to + 1)
      {
        ghost var now := AtWork(range, next, flying);
        assert next in flying ==> Flies(trace, next, flying[next]);
        var step;
        step, flying, next := OneStep(range, next, flying, course, time);
        inFlight := flying;
        if step.Crash? {
          return false, steps, flying, next;
        }
        OneMoreDue(parallel, start, steps, now, course);
        ConsistentStep(parallel, now, step);
        steps := steps + [step];
        time := time + 1;
      }
      finished := course.crashAfter != Some(time);
    }

    /**
     One message. Every step is the one due, as the course has it, from the received message on and until
     the loop is idle again: when the whole range has been processed and the checkpoint is at its top, or
     when a crash was due.
     */
    method HandleMessage(numbers: seq<nat>, readable: bool, course: Course)
      returns (finished: bool, ghost steps: seq<Step<Stmt>>)
      requires Valid() && Consistent(AtRest()) && parallel > 0 && numbers != []
      modifies this`trace, this`done, db`metadata
      modifies db`deposits, db`withdrawals, db`nominators, db`operators, db`sharePrices
      ensures Valid() && Consistent(AtRest())
      ensures Taken(parallel, old(AtRest()), numbers, readable, course, finished, steps, AtRest())
      ensures !finished ==>
                CutShort(parallel, old(AtRest()), Apply(parallel, old(AtRest()), Receive(numbers, readable)), steps,
                         Stored())
    {
      ghost var before := AtRest();
      var last := ReadCheckpoint(readable);
      var range := ChooseRange(numbers, last);
      steps := [];
      if range.from > range.to {
        return true, [];
      }
      ghost var started := AtWork(range, range.from, map[]);
      ghost var inFlight;
      var next;
      finished, steps, inFlight, next := ProcessRange(range, course);
      OneMoreDue(parallel, started, steps, AtWork(range, next, inFlight), course);
      steps := steps + [if finished then Finish else Crash];
      if finished {
        db.SetLastProcessedBlock(checkpointKey, range.to);
      } else {
        CrashStoresHundred(parallel, before, numbers, readable, course, steps, AtRest());
      }
    }

    /** One round of the receive loop; it goes on unless the channel or the process has ended. */
    method TakeItem(item: Received) returns (ended: Option<Ended>, ghost steps: seq<Step<Stmt>>)
      requires Valid() && Consistent(AtRest()) && parallel > 0
      modifies this`trace, this`done, db`metadata
      modifies db`deposits, db`withdrawals, db`nominators, db`operators, db`sharePrices
      ensures Valid() && Consistent(AtRest())
      ensures match ended
              case None => TakenOn(parallel, old(AtRest()), item, steps, AtRest())
              case Some(why) => EndedBy(parallel, old(AtRest()), item, why, steps, AtRest())
    {
      match item
      case Behind => return None, [];
      case Closed => return Some(ChannelClosed), [];
      case Message(numbers, readable, course) =>
        if numbers == [] {
          return Some(Panicked), [];
        }
        var finished;
        finished, steps := HandleMessage(numbers, readable, course);
        ended := if finished then None else Some(Interrupted);
    }

    /**
     The receive loop: it takes the items one after the other, each from the state the one before
     left, until the stream is used up, or the channel closes, or the process ends.
     */
    method RunProcessor(stream: seq<Received>) returns (ended: Ended, ghost life: Life)
      requires Valid() && Consistent(AtRest()) && parallel > 0
      modifies this`trace, this`done, db`metadata
      modifies db`deposits, db`withdrawals, db`nominators, db`operators, db`sharePrices
      ensures Valid() && Consistent(AtRest())
      ensures Lived(parallel, stream, ended, life)
      ensures life.states[0] == old(AtRest()) && life.states[|life.states| - 1] == AtRest()
    {
      life := Life([AtRest()], []);
      for k := 0 to |stream|
        invariant Valid() && Consistent(AtRest())
        invariant |life.handlings| == k && LivedOn(parallel, stream, life, k)
        invariant life.states[0] == old(AtRest()) && life.states[k] == AtRest()
      {
        ghost var steps;
        var why;
        why, steps := TakeItem(stream[k]);
        LivedOneMore(parallel, stream, life, steps, AtRest());
        life := Life(life.states + [AtRest()], life.handlings + [steps]);
        if why.Some? {
          return why.value, life;
        }
      }
      ended := Drained;
    }

    /**
     The process restarted any number of times on one database: every life is as above and starts from
     what the one before left, and everything at or below the checkpoint has been processed in full.
     */
    method RunWithRestarts(streams: seq<seq<Received>>) returns (ends: seq<Ended>, ghost lives: seq<Life>)
      requires Valid() && Sound(AtRest()) && parallel > 0
      modifies this`trace, this`done, db`metadata
      modifies db`deposits, db`withdrawals, db`nominators, db`operators, db`sharePrices
      ensures Valid() && Sound(AtRest())
      ensures |ends| == |lives| == |streams|
      ensures forall i | 0 <= i < |streams| :: Lived(parallel, streams[i], ends[i], lives[i])
      ensures Successive(old(AtRest()), lives, AtRest())
    {
      ends, lives := [], [];
      for k := 0 to |streams|
        invariant Valid() && Sound(AtRest())
        invariant |ends| == |lives| == k
        invariant forall i | 0 <= i < k :: Lived(parallel, streams[i], ends[i], lives[i])
        invariant Successive(old(AtRest()), lives, AtRest())
      {
        ghost var before := AtRest();
        var ended;
        ghost var life;
        ended, life := RunProcessor(streams[k]);
        LifeKeepsSound(parallel, streams[k], ended, life, |life.handlings|);
        OneMoreLife(old(AtRest()), lives, before, life, AtRest());
        ends, lives := ends + [ended], lives + [life];
      }
    }
  }

  /** A message was taken by the steps that were due, to the end or up to a crash. */
  ghost predicate Taken(
    parallel: nat, before: State<Stmt>, numbers: seq<nat>, readable: bool, course: Course, finished: bool,
    steps: seq<Step<Stmt>>, after: State<Stmt>)
    requires numbers != [] && before.phase.Idle?
  {
    var received := Apply(parallel, before, Receive(numbers, readable));
    && Run(parallel, received, steps) == Some(after) && after.phase.Idle?
    && AsDue(parallel, received, steps, course)
    && (finished <==> steps == [] || steps[|steps| - 1].Finish?)
  }

  /** A crash leaves the checkpoint of the last hundredth block whose result was taken, or the old one. */
  ghost predicate CutShort(
    parallel: nat, before: State<Stmt>, received: State<Stmt>, steps: seq<Step<Stmt>>, stored: Option<nat>)
  {
    && steps != []
    && var so := Run(parallel, received, steps[..|steps| - 1]);
       && so.Some? && so.value.phase.Working?
       && HundredStored(before.checkpoint, so.value.phase.from, so.value.phase.next, stored)
  }

  lemma {:induction false} CrashStoresHundred(
    parallel: nat, before: State<Stmt>, numbers: seq<nat>, readable: bool, course: Course,
    steps: seq<Step<Stmt>>, after: State<Stmt>)
    requires numbers != [] && before.phase.Idle?
    requires Taken(parallel, before, numbers, readable, course, false, steps, after)
    ensures CutShort(parallel, before, Apply(parallel, before, Receive(numbers, readable)), steps, after.checkpoint)
  {
    var received := Apply(parallel, before, Receive(numbers, readable));
    var init := steps[..|steps| - 1];
    DueGoesOnFromWork(parallel, received, steps, course, 0);
    DueGoesOnFromWork(parallel, received, steps, course, |steps| - 1);
    DueAtWork(parallel, received, init, course);
    CheckpointEveryHundred(parallel, received, init, Run(parallel, received, init).value);
  }

  /** The course determines how a message is taken: whether to the end, by which steps, and to which state. */
  lemma {:induction false} TakenIsDetermined(
    parallel: nat, before: State<Stmt>, numbers: seq<nat>, readable: bool, course: Course,
    finished: bool, steps: seq<Step<Stmt>>, after: State<Stmt>,
    finished': bool, steps': seq<Step<Stmt>>, after': State<Stmt>)
    requires numbers != [] && before.phase.Idle?
    requires Taken(parallel, before, numbers, readable, course, finished, steps, after)
    requires Taken(parallel, before, numbers, readable, course, finished', steps', after')
    ensures finished == finished' && steps == steps' && after == after'
  {
    var received := Apply(parallel, before, Receive(numbers, readable));
    if |steps| <= |steps'| {
      DueIsDetermined(parallel, received, steps, steps', course);
      if |steps| < |steps'| {
        DueGoesOnFromWork(parallel, received, steps', course, |steps|);
      }
    } else {
      DueIsDetermined(parallel, received, steps', steps, course);
      DueGoesOnFromWork(parallel, received, steps, course, |steps'|);
    }
  }

  /** What a message handled to the end has begun was fetched for it, and nothing else happened meanwhile. */
  lemma {:induction false} FinishedIsQuiet(
    parallel: nat, before: State<Stmt>, numbers: seq<nat>, readable: bool, course: Course,
    steps: seq<Step<Stmt>>, after: State<Stmt>)
    requires numbers != [] && before.phase.Idle?
    requires Taken(parallel, before, numbers, readable, course, true, steps, after)
    ensures forall i | 0 <= i < |steps| :: Quiet(steps[i])
    ensures forall i | 0 <= i < |steps| && steps[i].Begin? ::
              && steps[i].n <= RangeOf(numbers, ReadCheckpoint(before, readable)).to
              && course.fetch(steps[i].n, i) == Some(steps[i].attempt)
  {
    var received := Apply(parallel, before, Receive(numbers, readable));
    if steps != [] {
      var init := steps[..|steps| - 1];
      DueGoesOnFromWork(parallel, received, steps, course, 0);
      DueAtWork(parallel, received, init, course);
      assert forall i | 0 <= i < |init| :: steps[i] == init[i] && init[i] in init;
      forall i | 0 <= i < |steps| && steps[i].Begin?
        ensures steps[i].n <= received.phase.to && course.fetch(steps[i].n, i) == Some(steps[i].attempt)
      {
        BegunIsFetched(parallel, received, steps, course, i);
      }
    }
  }

  /** An item the receive loop goes on after. */
  ghost predicate TakenOn(
    parallel: nat, before: State<Stmt>, item: Received, steps: seq<Step<Stmt>>, after: State<Stmt>)
  {
    match item
    case Behind => steps == [] && after == before
    case Closed => false
    case Message(numbers, readable, course) =>
      before.phase.Idle? && numbers != [] && Taken(parallel, before, numbers, readable, course, true, steps, after)
  }

  /** The item that ended the receive loop, if any did. */
  ghost predicate EndedBy(
    parallel: nat, before: State<Stmt>, item: Received, ended: Ended, steps: seq<Step<Stmt>>, after: State<Stmt>)
  {
    match ended
    case Drained => false
    case ChannelClosed => item.Closed? && steps == [] && after == before
    case Panicked => item.Message? && item.numbers == [] && steps == [] && after == before
    case Interrupted =>
      && before.phase.Idle? && item.Message? && item.numbers != []
      && Taken(parallel, before, item.numbers, item.readable, item.course, false, steps, after)
  }

  /** One life of the process: the states between the items it took, and the steps each led to. */
  datatype Life = Life(states: seq<State<Stmt>>, handlings: seq<seq<Step<Stmt>>>)

  /** The first `k` items have been taken. */
  ghost predicate LivedOn(parallel: nat, stream: seq<Received>, life: Life, k: nat) {
    && k <= |life.handlings| && |life.states| == |life.handlings| + 1 && k <= |stream|
    && forall i | 0 <= i < k :: TakenOn(parallel, life.states[i], stream[i], life.handlings[i], life.states[i + 1])
  }

  lemma LivedOneMore(
    parallel: nat, stream: seq<Received>, life: Life, steps: seq<Step<Stmt>>, after: State<Stmt>)
    requires LivedOn(parallel, stream, life, |life.handlings|) && |life.handlings| < |stream|
    ensures var k := |life.handlings|;
            var longer := Life(life.states + [after], life.handlings + [steps]);
            && LivedOn(parallel, stream, longer, k)
            && (TakenOn(parallel, life.states[k], stream[k], steps, after) ==> LivedOn(parallel, stream, longer, k + 1))
            && longer.states[k] == life.states[k] && longer.handlings[k] == steps && longer.states[k + 1] == after
            && longer.states[0] == life.states[0]
  {
  }

  /** All items have been taken, or all before the one that ended the life. */
  ghost predicate Lived(parallel: nat, stream: seq<Received>, ended: Ended, life: Life) {
    var k := |life.handlings|;
    && |life.states| == k + 1
    && if ended.Drained? then k == |stream| && LivedOn(parallel, stream, life, k)
       else
         && 0 < k <= |stream| && LivedOn(parallel, stream, life, k - 1)
         && EndedBy(parallel, life.states[k - 1], stream[k - 1], ended, life.handlings[k - 1], life.states[k])
  }

  /** Each life starts from the state the one before it left. */
  ghost predicate Successive(start: State<Stmt>, lives: seq<Life>, now: State<Stmt>) {
    if lives == [] then now == start
    else
      var last := lives[|lives| - 1];
      && last.states != []
      && Successive(start, lives[..|lives| - 1], last.states[0])
      && last.states[|last.states| - 1] == now
  }

  lemma OneMoreLife(start: State<Stmt>, lives: seq<Life>, before: State<Stmt>, life: Life, after: State<Stmt>)
    requires Successive(start, lives, before)
    requires life.states != [] && life.states[0] == before && life.states[|life.states| - 1] == after
    ensures Successive(start, lives + [life], after)
  {
    assert (lives + [life])[..|lives|] == lives;
  }

  lemma {:induction false} TakenKeepsSound(
    parallel: nat, before: State<Stmt>, numbers: seq<nat>, readable: bool, course: Course, finished: bool,
    steps: seq<Step<Stmt>>, after: State<Stmt>)
    requires numbers != [] && before.phase.Idle? && Sound(before)
    requires Taken(parallel, before, numbers, readable, course, finished, steps, after)
    ensures Sound(after)
  {
    SoundStep(parallel, before, Receive(numbers, readable));
    CheckpointIsSound(parallel, Apply(parallel, before, Receive(numbers, readable)), steps);
  }

  lemma {:induction false} LifeKeepsSound(parallel: nat, stream: seq<Received>, ended: Ended, life: Life, k: nat)
    requires Lived(parallel, stream, ended, life) && Sound(life.states[0]) && k <= |life.handlings|
    ensures Sound(life.states[k])
  {
    if k > 0 {
      LifeKeepsSound(parallel, stream, ended, life, k - 1);
      var before, item, steps, after := life.states[k - 1], stream[k - 1], life.handlings[k - 1], life.states[k];
      if item.Message? && item.numbers != [] {
        var finished := k < |life.handlings| || ended.Drained?;
        if finished {
          assert TakenOn(parallel, before, item, steps, after);
        }
        TakenKeepsSound(parallel, before, item.numbers, item.readable, item.course, finished, steps, after);
      } else if k < |life.handlings| || ended.Drained? {
        assert TakenOn(parallel, before, item, steps, after);
      }
    }
  }
}
