/**
 The checkpointed processing loop: which blocks a message makes it process, how their statements
 interleave, when the checkpoint is written, and what a crash leaves behind.

 The loop keeps up to `parallel` blocks in flight and takes their results in ascending order. Whenever
 it begins a block it asks the node which block is canonical at that height, so the chain may change
 between any two attempts. A step is one database statement, so a crash (or an error, which ends the
 process the same way) may fall between any two of them; a restart begins at the stored checkpoint.
 */
module Processor {
  import opened Chain
  import opened Outcomes
  import opened Schedules

  const CHECKPOINT_PROCESSED_BLOCK: nat := 100

  function Least(numbers: seq<nat>): (least: nat)
    requires numbers != []
    ensures least in numbers && forall n | n in numbers :: least <= n
  {
    if |numbers| == 1 then numbers[0]
    else
      var rest := Least(numbers[1..]);
      assert numbers == [numbers[0]] + numbers[1..];
      if numbers[0] < rest then numbers[0] else rest
  }

  function Greatest(numbers: seq<nat>): (greatest: nat)
    requires numbers != []
    ensures greatest in numbers && forall n | n in numbers :: n <= greatest
  {
    if |numbers| == 1 then numbers[0]
    else
      var rest := Greatest(numbers[1..]);
      assert numbers == [numbers[0]] + numbers[1..];
      if rest < numbers[0] then numbers[0] else rest
  }

  datatype Range = Range(from: nat, to: nat)

  /** The blocks a message with these block numbers makes the loop process. */
  function RangeOf(numbers: seq<nat>, lastProcessed: nat): Range
    requires numbers != []
  {
    if |numbers| == 1 then Range(lastProcessed + 1, numbers[0])
    else Range(if Least(numbers) < lastProcessed + 1 then Least(numbers) else lastProcessed + 1, Greatest(numbers))
  }

  /** The range computation, with its loops for the least and the greatest number. */
  method ChooseRange(numbers: seq<nat>, lastProcessed: nat) returns (range: Range)
    requires numbers != []
    ensures range == RangeOf(numbers, lastProcessed)
    ensures range.to in numbers && forall n | n in numbers :: n <= range.to
    ensures range.from == lastProcessed + 1
            || (|numbers| > 1 && range.from in numbers && range.from <= lastProcessed)
    ensures |numbers| > 1 ==> forall n | n in numbers :: range.from <= n
  {
    if |numbers| == 1 {
      return Range(lastProcessed + 1, numbers[0]);
    }
    var min, max := numbers[0], numbers[0];
    for i := 1 to |numbers|
      invariant min in numbers[..i] && max in numbers[..i]
      invariant forall n | n in numbers[..i] :: min <= n <= max
    {
      if numbers[i] < min { min := numbers[i]; }
      if max < numbers[i] { max := numbers[i]; }
      assert numbers[..i + 1] == numbers[..i] + [numbers[i]];
    }
    assert numbers[..|numbers|] == numbers;
    range := Range(if min < lastProcessed + 1 then min else lastProcessed + 1, max);
  }

  /** A try at a height: the block the node called canonical when it began, and the statements to execute. */
  datatype Attempt<+T> = Attempt(hash: Hash, program: seq<T>)

  /** An attempt in flight and how many of its statements it has executed. */
  datatype Flight<+T> = Flight(attempt: Attempt<T>, executed: nat)

  /** Idle, or processing a range: results taken below `next`, and the blocks in flight. */
  datatype Phase<+T> = Idle | Working(from: nat, to: nat, next: nat, inFlight: map<nat, Flight<T>>)

  /**
   `checkpoint` is what the database stores. `trace` lists the statements executed so far and `done`
   the attempt last finished, with its result taken, at each height.
   */
  datatype State<+T> = State(checkpoint: Option<nat>, phase: Phase<T>, trace: seq<Ran<T>>, done: map<nat, Attempt<T>>)

  function Initial<T>(): State<T> {
    State(None, Idle, [], map[])
  }

  /** The stored checkpoint, read as 0 when there is none. */
  function Checkpoint<T>(s: State<T>): nat {
    match s.checkpoint
    case None => 0
    case Some(n) => n
  }

  datatype Step<+T> =
    | Receive(numbers: seq<nat>, readable: bool)
    | Lagged
    | Begin(n: nat, attempt: Attempt<T>)
    | Execute(n: nat)
    | Yield
    | Finish
    | Crash

  /** The last processed block as read: a failing read counts as 0 too. */
  function ReadCheckpoint<T>(s: State<T>, readable: bool): nat {
    if readable then Checkpoint(s) else 0
  }

  predicate Enabled<T>(parallel: nat, s: State<T>, step: Step<T>) {
    match step
    case Receive(_, _) => s.phase.Idle?
    case Lagged => s.phase.Idle?
    case Begin(n, _) =>
      && s.phase.Working?
      && s.phase.next <= n <= s.phase.to && n < s.phase.next + parallel && n !in s.phase.inFlight
    case Execute(n) =>
      && s.phase.Working?
      && s.phase.next <= n && n in s.phase.inFlight
      && s.phase.inFlight[n].executed < |s.phase.inFlight[n].attempt.program|
    case Yield =>
      && s.phase.Working?
      && s.phase.next <= s.phase.to && s.phase.next in s.phase.inFlight
      && s.phase.inFlight[s.phase.next].executed == |s.phase.inFlight[s.phase.next].attempt.program|
    case Finish => s.phase.Working? && s.phase.next == s.phase.to + 1
    case Crash => true
  }

  function Apply<T>(parallel: nat, s: State<T>, step: Step<T>): State<T>
    requires Enabled(parallel, s, step)
  {
    match step
    case Receive(numbers, readable) =>
      if numbers == [] then s  // The loop panics, and restarts idle.
      else
        var range := RangeOf(numbers, ReadCheckpoint(s, readable));
        if range.from > range.to then s else s.(phase := Working(range.from, range.to, range.from, map[]))
    case Lagged => s
    case Begin(n, attempt) => s.(phase := s.phase.(inFlight := s.phase.inFlight[n := Flight(attempt, 0)]))
    case Execute(n) =>
      var flight := s.phase.inFlight[n];
      s.(phase := s.phase.(inFlight := s.phase.inFlight[n := flight.(executed := flight.executed + 1)]),
         trace := s.trace + [Ran(n, flight.executed, flight.attempt.program)])
    case Yield =>
      var n := s.phase.next;
      s.(phase := s.phase.(next := n + 1, inFlight := s.phase.inFlight - {n}),
         checkpoint := if n % CHECKPOINT_PROCESSED_BLOCK == 0 then Some(n) else s.checkpoint,
         done := s.done[n := s.phase.inFlight[n].attempt])
    case Finish => s.(phase := Idle, checkpoint := Some(s.phase.to))
    case Crash => s.(phase := Idle)
  }

  /** The state a sequence of steps leads to, if each is enabled in turn. */
  function Run<T>(parallel: nat, start: State<T>, steps: seq<Step<T>>): Option<State<T>> {
    if steps == [] then Some(start)
    else
      match Run(parallel, start, steps[..|steps| - 1])
      case None => None
      case Some(s) =>
        if Enabled(parallel, s, steps[|steps| - 1]) then Some(Apply(parallel, s, steps[|steps| - 1]))
        else None
  }

  lemma {:induction false} RunOneMore<T>(
    parallel: nat, start: State<T>, steps: seq<Step<T>>, s: State<T>, step: Step<T>)
    requires Run(parallel, start, steps) == Some(s) && Enabled(parallel, s, step)
    ensures Run(parallel, start, steps + [step]) == Some(Apply(parallel, s, step))
  {
    assert (steps + [step])[..|steps|] == steps;
  }

  lemma {:induction false} RunAppend<T>(
    parallel: nat, start: State<T>, a: seq<Step<T>>, middle: State<T>, b: seq<Step<T>>)
    requires Run(parallel, start, a) == Some(middle)
    ensures Run(parallel, start, a + b) == Run(parallel, middle, b)
    decreases |b|
  {
    if b == [] {
      assert a + b == a;
    } else {
      RunAppend(parallel, start, a, middle, b[..|b| - 1]);
      assert (a + b)[..|a + b| - 1] == a + b[..|b| - 1];
    }
  }

  // What every step keeps

  /** The blocks in flight are as far as the trace says. */
  ghost predicate Flies<T>(trace: seq<Ran<T>>, n: nat, flight: Flight<T>) {
    && flight.executed <= |flight.attempt.program|
    && (flight.executed > 0 ==> Latest(trace, n) == Some(Ran(n, flight.executed - 1, flight.attempt.program)))
  }

  ghost predicate Consistent<T>(s: State<T>) {
    && IsSchedule(s.trace)
    && (s.phase.Working? ==> forall n | n in s.phase.inFlight :: Flies(s.trace, n, s.phase.inFlight[n]))
  }

  /** The latest attempt at the height is this one, and executed in full; an attempt without statements always is. */
  ghost predicate Finished<T>(trace: seq<Ran<T>>, n: nat, program: seq<T>) {
    program != [] ==> Latest(trace, n) == Some(Ran(n, |program| - 1, program))
  }

  lemma {:induction false} FliesOn<T>(trace: seq<Ran<T>>, n: nat, flight: Flight<T>, k: nat, other: Flight<T>)
    requires Flies(trace, n, flight) && flight.executed < |flight.attempt.program|
    requires Flies(trace, k, other)
    ensures Flies(trace + [Ran(n, flight.executed, flight.attempt.program)], k,
                  if k == n then flight.(executed := flight.executed + 1) else other)
  {
    LatestAfter(trace, Ran(n, flight.executed, flight.attempt.program), k);
  }

  lemma {:induction false} ExecutedMayRun<T>(trace: seq<Ran<T>>, n: nat, flight: Flight<T>)
    requires IsSchedule(trace) && Flies(trace, n, flight) && flight.executed < |flight.attempt.program|
    ensures IsSchedule(trace + [Ran(n, flight.executed, flight.attempt.program)])
  {
    var after := trace + [Ran(n, flight.executed, flight.attempt.program)];
    assert after[..|after| - 1] == trace;
  }

  lemma {:induction false} ConsistentStep<T>(parallel: nat, s: State<T>, step: Step<T>)
    requires Consistent(s) && Enabled(parallel, s, step)
    ensures Consistent(Apply(parallel, s, step))
  {
    if step.Execute? {
      var flight := s.phase.inFlight[step.n];
      assert Flies(s.trace, step.n, flight);
      ExecutedMayRun(s.trace, step.n, flight);
      forall k | k in s.phase.inFlight
        ensures Flies(s.trace + [Ran(step.n, flight.executed, flight.attempt.program)], k,
                      if k == step.n then flight.(executed := flight.executed + 1) else s.phase.inFlight[k])
      {
        FliesOn(s.trace, step.n, flight, k, s.phase.inFlight[k]);
      }
    }
  }

  lemma LatestAfter<T>(trace: seq<Ran<T>>, ran: Ran<T>, n: nat)
    ensures Latest(trace + [ran], n) == if ran.block == n then Some(ran) else Latest(trace, n)
  {
    assert (trace + [ran])[..|trace|] == trace;
  }

  /** A result that is taken is that of an attempt finished in full. */
  lemma {:induction false} YieldedIsFinished<T>(parallel: nat, s: State<T>)
    requires Consistent(s) && Enabled(parallel, s, Yield)
    ensures Finished(s.trace, s.phase.next, s.phase.inFlight[s.phase.next].attempt.program)
  {
    assert Flies(s.trace, s.phase.next, s.phase.inFlight[s.phase.next]);
  }

  // Checkpoint soundness

  /** Some attempt executed these statements at the height in full. */
  ghost predicate WasExecuted<T>(trace: seq<Ran<T>>, n: nat, program: seq<T>) {
    program != [] ==> Ran(n, |program| - 1, program) in trace
  }

  /** The height has been processed in full, with its result taken. */
  ghost predicate Processed<T>(s: State<T>, n: nat) {
    n in s.done && WasExecuted(s.trace, n, s.done[n].program)
  }

  /** Everything at or below the checkpoint, and below the results taken so far, was processed in full. */
  ghost predicate Sound<T>(s: State<T>) {
    && Consistent(s)
    && (forall n | n in s.done :: Processed(s, n))
    && (forall n | 1 <= n <= Checkpoint(s) :: n in s.done)
    && (s.phase.Working? ==>
          && s.phase.from <= s.phase.next <= s.phase.to + 1
          && forall n | 1 <= n < s.phase.next :: n in s.done)
  }

  lemma {:induction false} ProcessedStays<T>(parallel: nat, s: State<T>, step: Step<T>, n: nat)
    requires Consistent(s) && Enabled(parallel, s, step)
    requires n in s.done ==> Processed(s, n)
    ensures n in Apply(parallel, s, step).done ==> Processed(Apply(parallel, s, step), n)
  {
    if step.Yield? && n == s.phase.next {
      YieldedIsFinished(parallel, s);
      if s.phase.inFlight[n].attempt.program != [] {
        LatestWasRun(s.trace, n);
      }
    }
  }

  lemma {:induction false} SoundStep<T>(parallel: nat, s: State<T>, step: Step<T>)
    requires Sound(s) && Enabled(parallel, s, step)
    ensures Sound(Apply(parallel, s, step))
  {
    ConsistentStep(parallel, s, step);
    forall n | n in Apply(parallel, s, step).done
      ensures Processed(Apply(parallel, s, step), n)
    {
      ProcessedStays(parallel, s, step, n);
    }
  }

  /**
   Checkpoint soundness, over every run: any messages (short, long, below the checkpoint), a chain
   that changes between any two attempts, lag, failing reads of the checkpoint and crashes anywhere.
   Every block up to the checkpoint was executed in full by some attempt, even after a reorg has
   moved the checkpoint back.
   */
  lemma {:induction false} CheckpointIsSound<T>(parallel: nat, start: State<T>, steps: seq<Step<T>>)
    requires Sound(start) && Run(parallel, start, steps).Some?
    ensures Sound(Run(parallel, start, steps).value)
  {
    if steps != [] {
      CheckpointIsSound(parallel, start, steps[..|steps| - 1]);
      SoundStep(parallel, Run(parallel, start, steps[..|steps| - 1]).value, steps[|steps| - 1]);
    }
  }

  // Runs whose messages never reach below the checkpoint

  /** The message makes the loop redo blocks the checkpoint calls done. */
  predicate ReachesBelow<T>(s: State<T>, step: Step<T>) {
    && step.Receive? && step.numbers != []
    && var range := RangeOf(step.numbers, ReadCheckpoint(s, step.readable));
       range.from <= range.to && range.from <= Checkpoint(s)
  }

  predicate NeverReachesBelow<T>(parallel: nat, start: State<T>, steps: seq<Step<T>>) {
    steps == [] ||
    (&& NeverReachesBelow(parallel, start, steps[..|steps| - 1])
     && var before := Run(parallel, start, steps[..|steps| - 1]);
        before.Some? && !ReachesBelow(before.value, steps[|steps| - 1]))
  }

  /** The height's latest attempt is the one whose result was taken, executed in full. */
  ghost predicate Settled<T>(s: State<T>, n: nat) {
    n in s.done && Finished(s.trace, n, s.done[n].program)
  }

  /** Every height from 1 and below `top` is settled. */
  ghost predicate SettledBelow<T>(s: State<T>, top: nat) {
    forall n | 1 <= n < top :: Settled(s, n)
  }

  /** No block at or below the checkpoint, nor below the results taken, is left half-done. */
  ghost predicate AllSettled<T>(s: State<T>) {
    && SettledBelow(s, Checkpoint(s) + 1)
    && (s.phase.Working? ==> Checkpoint(s) < s.phase.next && SettledBelow(s, s.phase.next))
  }

  /** What lies below the blocks in flight stays settled, and a taken result settles its height. */
  lemma {:induction false} SettledStays<T>(parallel: nat, s: State<T>, step: Step<T>, n: nat)
    requires Consistent(s) && Enabled(parallel, s, step) && Settled(s, n)
    requires s.phase.Working? ==> n < s.phase.next
    ensures Settled(Apply(parallel, s, step), n)
  {
    if step.Execute? {
      LatestAfter(s.trace, Ran(step.n, s.phase.inFlight[step.n].executed, s.phase.inFlight[step.n].attempt.program), n);
    }
  }

  lemma {:induction false} AllSettledStep<T>(parallel: nat, s: State<T>, step: Step<T>)
    requires Consistent(s) && AllSettled(s)
    requires Enabled(parallel, s, step) && !ReachesBelow(s, step)
    ensures AllSettled(Apply(parallel, s, step))
  {
    var after := Apply(parallel, s, step);
    var top := if s.phase.Working? then s.phase.next else Checkpoint(s) + 1;
    forall n | 1 <= n < top
      ensures Settled(after, n)
    {
      SettledStays(parallel, s, step, n);
    }
    if step.Yield? {
      YieldedIsFinished(parallel, s);
      assert Settled(after, s.phase.next);
    }
  }

  /** As long as no message reaches below the checkpoint, nothing at or below it is ever left half-done. */
  lemma {:induction false} StaysSettled<T>(parallel: nat, start: State<T>, steps: seq<Step<T>>)
    requires Consistent(start) && AllSettled(start)
    requires Run(parallel, start, steps).Some? && NeverReachesBelow(parallel, start, steps)
    ensures Consistent(Run(parallel, start, steps).value) && AllSettled(Run(parallel, start, steps).value)
  {
    if steps != [] {
      StaysSettled(parallel, start, steps[..|steps| - 1]);
      var before := Run(parallel, start, steps[..|steps| - 1]).value;
      ConsistentStep(parallel, before, steps[|steps| - 1]);
      AllSettledStep(parallel, before, steps[|steps| - 1]);
    }
  }

  /** The blocks in flight are above the checkpoint. */
  predicate FliesAbove<T>(s: State<T>) {
    s.phase.Working? ==> Checkpoint(s) < s.phase.next
  }

  /**
   What lies at or below the checkpoint stays as it is, settled or not: no run that never reaches
   below it executes anything there, and the checkpoint only rises.
   */
  lemma {:induction false} UntouchedBelow<T>(parallel: nat, start: State<T>, steps: seq<Step<T>>, n: nat)
    requires Run(parallel, start, steps).Some? && NeverReachesBelow(parallel, start, steps)
    requires FliesAbove(start) && n <= Checkpoint(start)
    ensures var after := Run(parallel, start, steps).value;
            && FliesAbove(after) && Checkpoint(start) <= Checkpoint(after)
            && Latest(after.trace, n) == Latest(start.trace, n)
            && (n in after.done <==> n in start.done)
            && (n in start.done ==> after.done[n] == start.done[n])
  {
    if steps != [] {
      UntouchedBelow(parallel, start, steps[..|steps| - 1], n);
      UntouchedStep(parallel, Run(parallel, start, steps[..|steps| - 1]).value, steps[|steps| - 1], n);
    }
  }

  lemma {:induction false} UntouchedStep<T>(parallel: nat, s: State<T>, step: Step<T>, n: nat)
    requires Enabled(parallel, s, step) && !ReachesBelow(s, step) && FliesAbove(s) && n <= Checkpoint(s)
    ensures var after := Apply(parallel, s, step);
            && FliesAbove(after) && Checkpoint(s) <= Checkpoint(after)
            && Latest(after.trace, n) == Latest(s.trace, n)
            && (n in after.done <==> n in s.done)
            && (n in s.done ==> after.done[n] == s.done[n])
  {
    if step.Execute? {
      LatestAfter(s.trace, Ran(step.n, s.phase.inFlight[step.n].executed, s.phase.inFlight[step.n].attempt.program), n);
    }
  }

  // One message handled without a crash

  predicate Quiet<T>(step: Step<T>) {
    step.Begin? || step.Execute? || step.Yield? || step.Finish?
  }

  /** From idle, one readable message and then only its own processing steps, back to idle. */
  predicate Handles<T>(parallel: nat, s: State<T>, numbers: seq<nat>, steps: seq<Step<T>>) {
    && s.phase.Idle? && numbers != []
    && (forall i | 0 <= i < |steps| :: Quiet(steps[i]))
    && var after := Run(parallel, Apply(parallel, s, Receive(numbers, true)), steps);
       after.Some? && after.value.phase.Idle?
  }

  function AfterMessage<T>(parallel: nat, s: State<T>, numbers: seq<nat>, steps: seq<Step<T>>): State<T>
    requires Handles(parallel, s, numbers, steps)
  {
    Run(parallel, Apply(parallel, s, Receive(numbers, true)), steps).value
  }

  /** `done` with the heights from `from` and below `next` replaced by attempts that the steps began. */
  ghost predicate Redone<T>(
    steps: seq<Step<T>>, before: map<nat, Attempt<T>>, from: nat, next: nat, after: map<nat, Attempt<T>>)
  {
    forall n ::
      && (n in after <==> n in before || from <= n < next)
      && (from <= n < next ==> Begin(n, after[n]) in steps)
      && (n in before && !(from <= n < next) ==> after[n] == before[n])
  }

  /** While a message is handled: the results taken so far, or all of them and the checkpoint at the end. */
  ghost predicate PartlyHandled<T>(s: State<T>, range: Range, steps: seq<Step<T>>, now: State<T>) {
    if range.from > range.to then now == s
    else if now.phase.Working? then
      && now.phase.from == range.from && now.phase.to == range.to
      && range.from <= now.phase.next <= range.to + 1
      && (forall n | n in now.phase.inFlight :: Begin(n, now.phase.inFlight[n].attempt) in steps)
      && Redone(steps, s.done, range.from, now.phase.next, now.done)
    else
      now.checkpoint == Some(range.to) && Redone(steps, s.done, range.from, range.to + 1, now.done)
  }

  lemma {:induction false} QuietStepKeepsPartly<T>(
    parallel: nat, s: State<T>, range: Range, steps: seq<Step<T>>, now: State<T>, step: Step<T>)
    requires s.phase.Idle? && PartlyHandled(s, range, steps, now)
    requires Quiet(step) && Enabled(parallel, now, step)
    ensures PartlyHandled(s, range, steps + [step], Apply(parallel, now, step))
  {
  }

  lemma {:induction false} HandlingKeepsPartly<T>(
    parallel: nat, s: State<T>, numbers: seq<nat>, steps: seq<Step<T>>)
    requires s.phase.Idle? && numbers != []
    requires forall i | 0 <= i < |steps| :: Quiet(steps[i])
    requires Run(parallel, Apply(parallel, s, Receive(numbers, true)), steps).Some?
    ensures PartlyHandled(s, RangeOf(numbers, Checkpoint(s)), steps,
                          Run(parallel, Apply(parallel, s, Receive(numbers, true)), steps).value)
  {
    if steps != [] {
      var init, last := steps[..|steps| - 1], steps[|steps| - 1];
      HandlingKeepsPartly(parallel, s, numbers, init);
      var now := Run(parallel, Apply(parallel, s, Receive(numbers, true)), init).value;
      QuietStepKeepsPartly(parallel, s, RangeOf(numbers, Checkpoint(s)), init, now, last);
      assert steps == init + [last];
    }
  }

  /** Handling settles what it redoes and keeps settled what it does not. */
  lemma {:induction false} HandlingSettles<T>(parallel: nat, start: State<T>, steps: seq<Step<T>>)
    requires Consistent(start) && start.phase.Working? && SettledBelow(start, start.phase.next)
    requires forall i | 0 <= i < |steps| :: Quiet(steps[i])
    requires Run(parallel, start, steps).Some?
    ensures var now := Run(parallel, start, steps).value;
            && Consistent(now)
            && SettledBelow(now, if now.phase.Working? then now.phase.next else Checkpoint(now) + 1)
  {
    if steps != [] {
      var init, last := steps[..|steps| - 1], steps[|steps| - 1];
      HandlingSettles(parallel, start, init);
      var now := Run(parallel, start, init).value;
      ConsistentStep(parallel, now, last);
      QuietStepSettles(parallel, now, last);
    }
  }

  lemma {:induction false} QuietStepSettles<T>(parallel: nat, s: State<T>, step: Step<T>)
    requires Consistent(s) && Quiet(step) && Enabled(parallel, s, step) && SettledBelow(s, s.phase.next)
    ensures var after := Apply(parallel, s, step);
            SettledBelow(after, if after.phase.Working? then after.phase.next else Checkpoint(after) + 1)
  {
    var after := Apply(parallel, s, step);
    forall n | 1 <= n < s.phase.next
      ensures Settled(after, n)
    {
      SettledStays(parallel, s, step, n);
    }
    if step.Yield? {
      YieldedIsFinished(parallel, s);
      assert Settled(after, s.phase.next);
    }
  }

  /**
   Whatever the interleaving, a handled message ends with the whole range processed, by attempts begun
   while it was handled, everything else as it was, and the checkpoint at the top of the range.
   */
  lemma {:induction false} HandledMessage<T>(parallel: nat, s: State<T>, numbers: seq<nat>, steps: seq<Step<T>>)
    requires Handles(parallel, s, numbers, steps)
    ensures var range := RangeOf(numbers, Checkpoint(s));
            var after := AfterMessage(parallel, s, numbers, steps);
            if range.from > range.to then after == s
            else after.checkpoint == Some(range.to)
                 && Redone(steps, s.done, range.from, range.to + 1, after.done)
  {
    HandlingKeepsPartly(parallel, s, numbers, steps);
  }

  /**
   A handled message also leaves nothing at or below the new checkpoint half-done, even one that reached
   below the old.
   */
  lemma {:induction false} HandledMessageSettles<T>(
    parallel: nat, s: State<T>, numbers: seq<nat>, steps: seq<Step<T>>)
    requires Handles(parallel, s, numbers, steps)
    requires Consistent(s) && SettledBelow(s, Checkpoint(s) + 1)
    ensures var after := AfterMessage(parallel, s, numbers, steps);
            Consistent(after) && SettledBelow(after, Checkpoint(after) + 1)
  {
    var range := RangeOf(numbers, Checkpoint(s));
    if range.from > range.to {
      HandledMessage(parallel, s, numbers, steps);
    } else {
      var received := Apply(parallel, s, Receive(numbers, true));
      forall n | 1 <= n < range.from
        ensures Settled(received, n)
      {
        assert Settled(s, n);
      }
      HandlingSettles(parallel, received, steps);
    }
  }

  // The blocks in flight

  /** The blocks in flight are among the next `parallel` ones whose results are to be taken. */
  ghost predicate InWindow<T>(parallel: nat, phase: Phase<T>) {
    phase.Working? ==>
      forall n | n in phase.inFlight :: phase.next <= n <= phase.to && n < phase.next + parallel
  }

  lemma {:induction false} WindowStep<T>(parallel: nat, s: State<T>, step: Step<T>)
    requires InWindow(parallel, s.phase) && Enabled(parallel, s, step)
    ensures InWindow(parallel, Apply(parallel, s, step).phase)
  {
    match step
    case Begin(_, _) =>
    case Execute(_) =>
    case Yield =>
    case _ =>
  }

  lemma {:induction false} IntervalSize(low: nat, width: nat, numbers: set<nat>)
    requires forall n | n in numbers :: low <= n < low + width
    ensures |numbers| <= width
  {
    if width == 0 {
      assert numbers == {};
    } else {
      IntervalSize(low, width - 1, numbers - {low + width - 1});
    }
  }

  /** The loop never has more than `parallel` blocks in flight, and takes their results in ascending order. */
  lemma {:induction false} FlightsAreBounded<T>(parallel: nat, start: State<T>, steps: seq<Step<T>>)
    requires start.phase.Idle? && Run(parallel, start, steps).Some?
    ensures var phase := Run(parallel, start, steps).value.phase;
            InWindow(parallel, phase) && (phase.Working? ==> |phase.inFlight| <= parallel)
  {
    if steps != [] {
      var init, last := steps[..|steps| - 1], steps[|steps| - 1];
      FlightsAreBounded(parallel, start, init);
      WindowStep(parallel, Run(parallel, start, init).value, last);
      if Run(parallel, start, steps).value.phase.Working? {
        BoundedByWindow(parallel, Run(parallel, start, steps).value.phase);
      }
    }
  }

  /** As `s`, with the `count` lowest blocks in flight. */
  ghost predicate Filled<T>(s: State<T>, now: State<T>, count: nat)
    requires s.phase.Working?
  {
    && now.phase.Working? && now.phase.next == s.phase.next && now.phase.to == s.phase.to
    && |now.phase.inFlight| == count
    && forall n :: n in now.phase.inFlight <==> s.phase.next <= n < s.phase.next + count
  }

  lemma FillsOne<T>(parallel: nat, s: State<T>, before: State<T>, attempt: Attempt<T>, count: nat)
    requires s.phase.Working? && Filled(s, before, count)
    requires count < parallel && s.phase.next + count <= s.phase.to
    ensures Enabled(parallel, before, Begin(s.phase.next + count, attempt))
    ensures Filled(s, Apply(parallel, before, Begin(s.phase.next + count, attempt)), count + 1)
  {
  }

  lemma FillsOneMore<T>(parallel: nat, s: State<T>, begins: seq<Step<T>>, attempt: Attempt<T>, count: nat)
    requires s.phase.Working? && count < parallel && s.phase.next + count <= s.phase.to
    requires Run(parallel, s, begins).Some? && Filled(s, Run(parallel, s, begins).value, count)
    ensures var now := Run(parallel, s, begins + [Begin(s.phase.next + count, attempt)]);
            now.Some? && Filled(s, now.value, count + 1)
  {
    var before := Run(parallel, s, begins).value;
    FillsOne(parallel, s, before, attempt, count);
    RunOneMore(parallel, s, begins, before, Begin(s.phase.next + count, attempt));
  }

  /** The bound is reached: as long as the range has blocks left, `parallel` of them can be in flight. */
  lemma {:induction false} WindowFills<T>(parallel: nat, s: State<T>, attempt: Attempt<T>, count: nat)
    returns (begins: seq<Step<T>>)
    requires s.phase.Working? && s.phase.inFlight == map[]
    requires count <= parallel && s.phase.next + count <= s.phase.to + 1
    ensures var now := Run(parallel, s, begins);
            now.Some? && Filled(s, now.value, count)
  {
    begins := [];
    for k := 0 to count
      invariant Run(parallel, s, begins).Some? && Filled(s, Run(parallel, s, begins).value, k)
    {
      FillsOneMore(parallel, s, begins, attempt, k);
      begins := begins + [Begin(s.phase.next + k, attempt)];
    }
  }

  lemma BoundedByWindow<T>(parallel: nat, phase: Phase<T>)
    requires InWindow(parallel, phase) && phase.Working?
    ensures |phase.inFlight| <= parallel
  {
    IntervalSize(phase.next, parallel, phase.inFlight.Keys);
    assert |phase.inFlight.Keys| == |phase.inFlight|;
  }

  // Checkpoints within a range

  /**
   The stored checkpoint `after` is the greatest multiple of 100 from `from` and below `next`, or what it
   was before when there is none.
   */
  ghost predicate HundredStored(before: Option<nat>, from: nat, next: nat, after: Option<nat>) {
    if exists m: nat :: m % 100 == 0 && from <= m < next then
      && after.Some? && after.value % 100 == 0 && from <= after.value < next
      && forall m: nat | m % 100 == 0 && from <= m < next :: m <= after.value
    else after == before
  }

  lemma NextHundred(before: Option<nat>, from: nat, next: nat, after: Option<nat>)
    requires from <= next && HundredStored(before, from, next, after)
    ensures HundredStored(before, from, next + 1, if next % 100 == 0 then Some(next) else after)
  {
    if next % 100 == 0 {
      assert next % 100 == 0 && from <= next < next + 1;
    } else if m: nat :| m % 100 == 0 && from <= m < next + 1 {
      assert m < next;
    }
  }

  /**
   While a range is worked on and the results below `next` have been taken, the checkpoint stored is that
   of the last hundredth block among them.
   */
  lemma {:induction false} CheckpointEveryHundred<T>(
    parallel: nat, start: State<T>, steps: seq<Step<T>>, now: State<T>)
    requires start.phase.Working? && start.phase.next == start.phase.from
    requires Run(parallel, start, steps) == Some(now) && now.phase.Working?
    requires forall step | step in steps :: !step.Receive?
    ensures now.phase.from == start.phase.from <= now.phase.next
    ensures HundredStored(start.checkpoint, now.phase.from, now.phase.next, now.checkpoint)
  {
    if steps != [] {
      var init, last := steps[..|steps| - 1], steps[|steps| - 1];
      assert steps == init + [last];
      assert last in steps;
      var so := Run(parallel, start, init).value;
      if so.phase.Working? {
        CheckpointEveryHundred(parallel, start, init, so);
        NextHundred(start.checkpoint, so.phase.from, so.phase.next, so.checkpoint);
      }
    }
  }

  /**
   The crash leaves that checkpoint. If the range began right after the checkpoint, a restart repeats
   fewer than 100 of the results that had been taken.
   */
  lemma {:induction false} CrashRepeatsFewerThanHundred<T>(
    parallel: nat, s: State<T>, numbers: seq<nat>, readable: bool, steps: seq<Step<T>>, now: State<T>)
    requires s.phase.Idle? && (forall step | step in steps :: !step.Receive?)
    requires Run(parallel, s, [Receive(numbers, readable)] + steps) == Some(now) && now.phase.Working?
    ensures Run(parallel, s, [Receive(numbers, readable)] + steps + [Crash]).Some?
    ensures var after := Run(parallel, s, [Receive(numbers, readable)] + steps + [Crash]).value;
            && after.phase.Idle?
            && HundredStored(s.checkpoint, now.phase.from, now.phase.next, after.checkpoint)
            && (now.phase.from == Checkpoint(s) + 1 ==> Checkpoint(after) < now.phase.next <= Checkpoint(after) + 100)
  {
    var receive: Step<T> := Receive(numbers, readable);
    RunPrepend(parallel, s, receive, steps);
    RunOneMore(parallel, s, [receive] + steps, now, Crash);
    var received := Apply(parallel, s, receive);
    if received.phase.Working? {
      CheckpointEveryHundred(parallel, received, steps, now);
      HundredIsNear(s.checkpoint, now.phase.from, now.phase.next, now.checkpoint);
    } else {
      IdleStays(parallel, received, steps);
    }
  }

  lemma {:induction false} IdleStays<T>(parallel: nat, s: State<T>, steps: seq<Step<T>>)
    requires s.phase.Idle? && Run(parallel, s, steps).Some? && (forall step | step in steps :: !step.Receive?)
    ensures Run(parallel, s, steps).value.phase.Idle?
  {
    if steps != [] {
      var init, last := steps[..|steps| - 1], steps[|steps| - 1];
      assert steps == init + [last];
      IdleStays(parallel, s, init);
      assert last in steps;
    }
  }

  lemma {:induction false} HundredIsNear(before: Option<nat>, from: nat, next: nat, after: Option<nat>)
    requires from <= next && HundredStored(before, from, next, after)
    ensures from == (if before.Some? then before.value else 0) + 1 ==>
              var stored := if after.Some? then after.value else 0;
              stored < next <= stored + 100
  {
    if from == (if before.Some? then before.value else 0) + 1 {
      // The last hundred below `next` is less than 100 away.
      var last := (next - 1) / 100 * 100;
      assert last % 100 == 0 && last < next <= last + 100;
      if from <= last {
        assert exists m: nat :: m % 100 == 0 && from <= m < next;
      }
    }
  }

  // No deadlock

  /** The attempts chosen for the heights of a range. */
  ghost predicate Chosen<T>(steps: seq<Step<T>>, choose: map<nat, Attempt<T>>) {
    forall i | 0 <= i < |steps| && steps[i].Begin? :: steps[i].n in choose && steps[i].attempt == choose[steps[i].n]
  }

  function Flown<T>(phase: Phase<T>): nat
    requires phase.Working?
  {
    if phase.next in phase.inFlight then
      var flight := phase.inFlight[phase.next];
      if flight.executed < |flight.attempt.program| then |flight.attempt.program| - flight.executed else 0
    else 0
  }

  lemma {:induction false} RunPrepend<T>(parallel: nat, s: State<T>, step: Step<T>, rest: seq<Step<T>>)
    requires Enabled(parallel, s, step)
    ensures Run(parallel, s, [step] + rest) == Run(parallel, Apply(parallel, s, step), rest)
  {
    RunOneMore(parallel, s, [], s, step);
    assert [] + [step] == [step];
    RunAppend(parallel, s, [step], Apply(parallel, s, step), rest);
  }

  /** What the loop does when it always goes on with the lowest block. */
  function NextStep<T>(s: State<T>, choose: map<nat, Attempt<T>>): Step<T>
    requires s.phase.Working? && (s.phase.next <= s.phase.to ==> s.phase.next in choose)
  {
    var n := s.phase.next;
    if n > s.phase.to then Finish
    else if n !in s.phase.inFlight then Begin(n, choose[n])
    else if s.phase.inFlight[n].executed == |s.phase.inFlight[n].attempt.program| then Yield
    else Execute(n)
  }

  /** Whatever of a range has been done so far, the loop can go on and finish it, one block after the other. */
  lemma {:induction false} CanFinish<T>(parallel: nat, s: State<T>, choose: map<nat, Attempt<T>>)
    returns (steps: seq<Step<T>>)
    requires parallel > 0 && Consistent(s)
    requires s.phase.Working? && s.phase.next <= s.phase.to + 1
    requires forall n | s.phase.next <= n <= s.phase.to :: n in choose
    ensures (forall i | 0 <= i < |steps| :: Quiet(steps[i])) && Chosen(steps, choose)
    ensures Run(parallel, s, steps).Some? && Run(parallel, s, steps).value.phase.Idle?
    decreases s.phase.to + 1 - s.phase.next, if s.phase.next in s.phase.inFlight then 0 else 1, Flown(s.phase)
  {
    assert s.phase.next in s.phase.inFlight ==> Flies(s.trace, s.phase.next, s.phase.inFlight[s.phase.next]);
    var step := NextStep(s, choose);
    ConsistentStep(parallel, s, step);
    var rest := [];
    if !step.Finish? {
      rest := CanFinish(parallel, Apply(parallel, s, step), choose);
    }
    RunPrepend(parallel, s, step, rest);
    steps := [step] + rest;
  }

  /** Every non-empty message can be handled to the end, with any attempts. */
  lemma {:induction false} CanHandle<T>(parallel: nat, s: State<T>, numbers: seq<nat>, choose: map<nat, Attempt<T>>)
    returns (steps: seq<Step<T>>)
    requires parallel > 0 && Consistent(s) && s.phase.Idle? && numbers != []
    requires var range := RangeOf(numbers, Checkpoint(s)); forall n | range.from <= n <= range.to :: n in choose
    ensures Handles(parallel, s, numbers, steps) && Chosen(steps, choose)
  {
    var received := Apply(parallel, s, Receive(numbers, true));
    if received.phase.Idle? {
      steps := [];
    } else {
      steps := CanFinish(parallel, received, choose);
    }
  }
}
