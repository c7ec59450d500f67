/** Whole runs of the processing loop over the tables: what is in the database at any moment. */
module Runs {
  import opened Chain
  import opened Convergence
  import opened Counts
  import opened Outcomes
  import opened Processor
  import opened Readings
  import opened Recounts
  import opened Schedules
  import opened Staking
  import opened Tables
  import Xdm

  /** The blocks the node may ever call canonical, by hash. */
  type Ledger = map<Hash, Block>

  /** The attempt reads some block of its height, with some of the tolerated reads failing. */
  ghost predicate StakingAttempt(ledger: Ledger, n: nat, attempt: Attempt<Stmt>) {
    && attempt.hash in ledger && ledger[attempt.hash].height == n
    && exists read: Block | IsReading(ledger[attempt.hash], read) :: attempt.program == Program(read)
  }

  ghost predicate StakingSteps(ledger: Ledger, steps: seq<Step<Stmt>>) {
    forall i | 0 <= i < |steps| && steps[i].Begin? :: StakingAttempt(ledger, steps[i].n, steps[i].attempt)
  }

  /** All attempts in a state are at blocks of the ledger. */
  ghost predicate Staked(ledger: Ledger, s: State<Stmt>) {
    && RunsBlockPrograms(s.trace)
    && (forall n | n in s.done :: StakingAttempt(ledger, n, s.done[n]))
    && (s.phase.Working? ==> forall n | n in s.phase.inFlight :: StakingAttempt(ledger, n, s.phase.inFlight[n].attempt))
  }

  lemma {:induction false} AttemptIsBlockProgram(ledger: Ledger, n: nat, attempt: Attempt<Stmt>)
    requires StakingAttempt(ledger, n, attempt)
    ensures IsBlockProgram(attempt.program, n)
  {
    var read: Block :| IsReading(ledger[attempt.hash], read) && attempt.program == Program(read);
    ProgramIsBlockProgram(read);
  }

  lemma {:induction false} OneMoreBlockProgram(trace: seq<Ran<Stmt>>, ran: Ran<Stmt>)
    requires RunsBlockPrograms(trace) && IsBlockProgram(ran.program, ran.block)
    ensures RunsBlockPrograms(trace + [ran])
  {
    assert (trace + [ran])[..|trace|] == trace;
  }

  lemma {:induction false} StakedStep(ledger: Ledger, parallel: nat, s: State<Stmt>, step: Step<Stmt>)
    requires Staked(ledger, s) && Enabled(parallel, s, step)
    requires step.Begin? ==> StakingAttempt(ledger, step.n, step.attempt)
    ensures Staked(ledger, Apply(parallel, s, step))
  {
    match step
    case Begin(_, _) =>
    case Execute(n) =>
      var flight := s.phase.inFlight[n];
      AttemptIsBlockProgram(ledger, n, flight.attempt);
      OneMoreBlockProgram(s.trace, Ran(n, flight.executed, flight.attempt.program));
    case Yield =>
    case _ =>
  }

  lemma {:induction false} StakedRun(ledger: Ledger, parallel: nat, start: State<Stmt>, steps: seq<Step<Stmt>>)
    requires Staked(ledger, start) && StakingSteps(ledger, steps) && Run(parallel, start, steps).Some?
    ensures Staked(ledger, Run(parallel, start, steps).value)
  {
    if steps != [] {
      var init, last := steps[..|steps| - 1], steps[|steps| - 1];
      assert StakingSteps(ledger, init) by {
        assert forall i | 0 <= i < |init| :: init[i] == steps[i];
      }
      StakedRun(ledger, parallel, start, init);
      StakedStep(ledger, parallel, Run(parallel, start, init).value, last);
    }
  }

  /** The rows of height `n` are exactly the ones the block's events define, each once and in order. */
  ghost predicate HasRowsOf(t: Tables, b: Block, n: nat) {
    At(t.deposits, n) == DepositRows(b, |b.events|) && At(t.withdrawals, n) == WithdrawalRows(b, |b.events|)
  }

  /** The rows are those of the block, the withdrawals with the figures that the attempt read. */
  ghost predicate HasRowsAsRead(t: Tables, b: Block, attempt: Attempt<Stmt>, n: nat) {
    && At(t.deposits, n) == DepositRows(b, |b.events|)
    && exists read: Block | IsReading(b, read) && attempt.program == Program(read) ::
         At(t.withdrawals, n) == WithdrawalRows(read, |read.events|)
  }

  /** The attempt read the block's withdrawal entries to the figures that the chain holds. */
  ghost predicate ReadsEntries(b: Block, attempt: Attempt<Stmt>) {
    exists read: Block | IsReading(b, read) && attempt.program == Program(read) :: SameEntries(b, read, |b.events|)
  }

  /** The rows are those the attempt read, and the block's own if and only if it read them right. */
  ghost predicate HoldsRows(t: Tables, b: Block, attempt: Attempt<Stmt>, n: nat) {
    HasRowsAsRead(t, b, attempt, n) && (HasRowsOf(t, b, n) <==> ReadsEntries(b, attempt))
  }

  lemma {:induction false} RowsAreHeld(t: Tables, b: Block, attempt: Attempt<Stmt>, read: Block, n: nat)
    requires IsReading(b, read) && attempt.program == Program(read)
    requires At(t.deposits, n) == DepositsIn(attempt.program) && At(t.withdrawals, n) == WithdrawalsIn(attempt.program)
    ensures HoldsRows(t, b, attempt, n)
  {
    ProgramInserts(read);
    ReadingKeepsDeposits(b, read, |read.events|);
    WithdrawalsRightIff(b, read, |b.events|);
    if ReadsEntries(b, attempt) {
      var other: Block :|
        IsReading(b, other) && attempt.program == Program(other) && SameEntries(b, other, |b.events|);
      ProgramInserts(other);
      WithdrawalsRightIff(b, other, |b.events|);
    }
  }

  /** A settled height has the rows of the block its last finished attempt was at. */
  lemma {:induction false} SettledHasRows(ledger: Ledger, s: State<Stmt>, n: nat)
    requires Consistent(s) && Staked(ledger, s) && Settled(s, n)
    ensures HoldsRows(TablesAfter(s.trace), ledger[s.done[n].hash], s.done[n], n)
  {
    var attempt := s.done[n];
    AttemptIsBlockProgram(ledger, n, attempt);
    var read: Block :| IsReading(ledger[attempt.hash], read) && attempt.program == Program(read);
    CompleteBlockHasItsRows(s.trace, n);
    RowsAreHeld(TablesAfter(s.trace), ledger[attempt.hash], attempt, read, n);
  }

  /**
   Exactly-once effect from at-least-once processing, on a chain that may change under the loop. As
   long as no message reaches below the checkpoint, after any run, with crashes between any two
   statements, every height up to the checkpoint has the deposit and withdrawal rows of the block it was
   last processed with, each once: exactly these if and only if the attempt read the withdrawals right.
   */
  lemma {:induction false} ExactlyOnce(
    ledger: Ledger, parallel: nat, steps: seq<Step<Stmt>>, s: State<Stmt>, n: nat)
    requires Run(parallel, Initial<Stmt>(), steps) == Some(s) && StakingSteps(ledger, steps)
    requires NeverReachesBelow(parallel, Initial<Stmt>(), steps)
    requires 1 <= n <= Checkpoint(s)
    ensures n in s.done && s.done[n].hash in ledger && ledger[s.done[n].hash].height == n
    ensures HasRowsAsRead(TablesAfter(s.trace), ledger[s.done[n].hash], s.done[n], n)
    ensures HasRowsOf(TablesAfter(s.trace), ledger[s.done[n].hash], n)
            <==> ReadsEntries(ledger[s.done[n].hash], s.done[n])
  {
    StakedRun(ledger, parallel, Initial<Stmt>(), steps);
    StaysSettled(parallel, Initial<Stmt>(), steps);
    assert Settled(s, n);
    SettledHasRows(ledger, s, n);
  }

  // A message that reaches below the checkpoint

  /** From idle, between messages, with every block up to the checkpoint processed in full. */
  ghost predicate InOrder(ledger: Ledger, s: State<Stmt>) {
    s.phase.Idle? && Consistent(s) && Staked(ledger, s) && SettledBelow(s, Checkpoint(s) + 1)
  }

  /** The continuation that begins the attempt again, executes its first `k` statements, and crashes. */
  function CrashAfter(n: nat, attempt: Attempt<Stmt>, k: nat): seq<Step<Stmt>> {
    [Begin(n, attempt)] + seq(k, _ => Execute(n)) + [Crash]
  }

  /** The lowest block of the range is in flight, `k` statements executed. */
  ghost predicate Redoing(before: State<Stmt>, n: nat, attempt: Attempt<Stmt>, k: nat, s: State<Stmt>) {
    && s.phase.Working? && s.phase.next == n && s.phase.inFlight == map[n := Flight(attempt, k)]
    && s.checkpoint == before.checkpoint && s.done == before.done
  }

  lemma {:induction false} RedoOn(
    parallel: nat, before: State<Stmt>, received: State<Stmt>, n: nat, attempt: Attempt<Stmt>, k: nat)
    returns (s: State<Stmt>)
    requires parallel > 0 && k <= |attempt.program|
    requires received.phase.Working? && received.phase.next == n <= received.phase.to
    requires received.phase.inFlight == map[]
    requires received.checkpoint == before.checkpoint && received.done == before.done
    ensures Run(parallel, received, [Begin(n, attempt)] + seq(k, _ => Execute(n))) == Some(s)
    ensures Redoing(before, n, attempt, k, s)
  {
    if k == 0 {
      assert [Begin(n, attempt)] + seq(0, _ => Execute(n)) == [] + [Begin(n, attempt)];
      RunOneMore(parallel, received, [], received, Begin(n, attempt));
      s := Apply(parallel, received, Begin(n, attempt));
    } else {
      var so := RedoOn(parallel, before, received, n, attempt, k - 1);
      var steps := [Begin(n, attempt)] + seq(k - 1, _ => Execute(n));
      RunOneMore(parallel, received, steps, so, Execute(n));
      assert steps + [Execute(n)] == [Begin(n, attempt)] + seq(k, _ => Execute(n));
      s := Apply(parallel, so, Execute(n));
    }
  }

  /** Where the received message's range starts. */
  function LowestRedone(s: State<Stmt>, numbers: seq<nat>, readable: bool): nat
    requires numbers != []
  {
    RangeOf(numbers, ReadCheckpoint(s, readable)).from
  }

  /** The checkpoint still covers the height, of whose latest attempt only `k` statements have been executed. */
  ghost predicate HalfDone(ledger: Ledger, before: State<Stmt>, n: nat, k: nat, after: State<Stmt>) {
    && k > 0 && InPart(ledger, after)
    && after.checkpoint == before.checkpoint && after.done == before.done && n in before.done
    && Latest(after.trace, n) == Some(Ran(n, k - 1, before.done[n].program))
  }

  /** From idle, between messages, but maybe with blocks left half-done. */
  ghost predicate InPart(ledger: Ledger, s: State<Stmt>) {
    s.phase.Idle? && Consistent(s) && Staked(ledger, s)
  }

  /** The height is at or below the checkpoint, settled, and the lowest one the message redoes. */
  ghost predicate RedoneFirst(ledger: Ledger, s: State<Stmt>, numbers: seq<nat>, readable: bool, n: nat) {
    && s.phase.Idle? && numbers != [] && n == LowestRedone(s, numbers, readable)
    && 1 <= n <= Checkpoint(s) && Settled(s, n)
    && StakingAttempt(ledger, n, s.done[n])
    && Apply(1, s, Receive(numbers, readable)).phase
       == Working(n, RangeOf(numbers, ReadCheckpoint(s, readable)).to, n, map[])
    && n <= RangeOf(numbers, ReadCheckpoint(s, readable)).to
  }

  lemma {:induction false} LowestIsSettled(ledger: Ledger, s: State<Stmt>, numbers: seq<nat>, readable: bool)
    requires InOrder(ledger, s) && numbers != [] && (forall n | n in numbers :: n > 0)
    requires ReachesBelow(s, Receive(numbers, readable))
    ensures RedoneFirst(ledger, s, numbers, readable, LowestRedone(s, numbers, readable))
  {
    assert Settled(s, LowestRedone(s, numbers, readable));
  }

  lemma CrashStepsAreStaked(ledger: Ledger, n: nat, attempt: Attempt<Stmt>, k: nat)
    requires StakingAttempt(ledger, n, attempt)
    ensures StakingSteps(ledger, CrashAfter(n, attempt, k))
  {
  }

  /** A block in flight at which the process crashes stays as far as it was. */
  lemma {:induction false} CrashLeavesHalf(
    ledger: Ledger, parallel: nat, before: State<Stmt>, n: nat, attempt: Attempt<Stmt>, k: nat, s: State<Stmt>)
    requires Redoing(before, n, attempt, k, s) && Consistent(s) && k > 0
    requires Staked(ledger, Apply(parallel, s, Crash)) && n in before.done && attempt == before.done[n]
    ensures HalfDone(ledger, before, n, k, Apply(parallel, s, Crash))
  {
    assert Flies(s.trace, n, s.phase.inFlight[n]);
  }

  /**
   A message that reaches below the checkpoint, then a crash while its lowest block is processed again,
   leaves that block half-done.
   */
  lemma {:induction false} RedoCrash(
    ledger: Ledger, parallel: nat, s: State<Stmt>, numbers: seq<nat>, readable: bool, n: nat, k: nat)
    returns (after: State<Stmt>)
    requires InPart(ledger, s) && parallel > 0 && RedoneFirst(ledger, s, numbers, readable, n)
    requires 0 < k <= |s.done[n].program|
    ensures Run(parallel, Apply(parallel, s, Receive(numbers, readable)), CrashAfter(n, s.done[n], k)) == Some(after)
    ensures HalfDone(ledger, s, n, k, after)
  {
    var received := Apply(parallel, s, Receive(numbers, readable));
    ConsistentStep(parallel, s, Receive(numbers, readable));
    StakedStep(ledger, parallel, s, Receive(numbers, readable));
    after := RedoFrom(ledger, parallel, s, received, n, k);
  }

  lemma {:induction false} RedoFrom(
    ledger: Ledger, parallel: nat, before: State<Stmt>, received: State<Stmt>, n: nat, k: nat)
    returns (after: State<Stmt>)
    requires parallel > 0 && Consistent(received) && Staked(ledger, received)
    requires received.phase.Working? && received.phase.next == n <= received.phase.to
    requires received.phase.inFlight == map[]
    requires received.checkpoint == before.checkpoint && received.done == before.done
    requires n in before.done && StakingAttempt(ledger, n, before.done[n]) && 0 < k <= |before.done[n].program|
    ensures Run(parallel, received, CrashAfter(n, before.done[n], k)) == Some(after)
    ensures HalfDone(ledger, before, n, k, after)
  {
    var attempt := before.done[n];
    var steps := [Begin(n, attempt)] + seq(k, _ => Execute(n));
    var so := RedoOn(parallel, before, received, n, attempt, k);
    ConsistentRun(parallel, received, steps);
    RunOneMore(parallel, received, steps, so, Crash);
    after := Apply(parallel, so, Crash);
    CrashStepsAreStaked(ledger, n, attempt, k);
    StakedRun(ledger, parallel, received, CrashAfter(n, attempt, k));
    CrashLeavesHalf(ledger, parallel, before, n, attempt, k, so);
  }

  lemma {:induction false} ConsistentRun<T>(parallel: nat, start: State<T>, steps: seq<Step<T>>)
    requires Consistent(start) && Run(parallel, start, steps).Some?
    ensures Consistent(Run(parallel, start, steps).value)
  {
    if steps != [] {
      ConsistentRun(parallel, start, steps[..|steps| - 1]);
      ConsistentStep(parallel, Run(parallel, start, steps[..|steps| - 1]).value, steps[|steps| - 1]);
    }
  }

  lemma {:induction false} NoMessagesNeverReach<T>(parallel: nat, start: State<T>, steps: seq<Step<T>>)
    requires Run(parallel, start, steps).Some? && forall i | 0 <= i < |steps| :: !steps[i].Receive?
    ensures NeverReachesBelow(parallel, start, steps)
  {
    if steps != [] {
      NoMessagesNeverReach(parallel, start, steps[..|steps| - 1]);
    }
  }

  /**
   However the loop goes on after the message, as long as no later one reaches below, all up to the
   checkpoint stays in order.
   */
  ghost predicate StaysInOrder(ledger: Ledger, parallel: nat, received: State<Stmt>) {
    forall steps: seq<Step<Stmt>> | GoesOn(ledger, parallel, received, steps) ::
      SettledBelow(Run(parallel, received, steps).value, Checkpoint(Run(parallel, received, steps).value) + 1)
  }

  ghost predicate GoesOn(ledger: Ledger, parallel: nat, start: State<Stmt>, steps: seq<Step<Stmt>>) {
    StakingSteps(ledger, steps) && Run(parallel, start, steps).Some? && NeverReachesBelow(parallel, start, steps)
  }

  /**
   The condition of the exactly-once theorem is exact. A message can be received without the danger
   that a crash leaves a block at or below the checkpoint half-processed if and only if it does not
   reach below the checkpoint.
   */
  lemma {:induction false} InOrderIffNotBelow(
    ledger: Ledger, parallel: nat, s: State<Stmt>, numbers: seq<nat>, readable: bool)
    requires InOrder(ledger, s) && parallel > 0 && numbers != [] && (forall n | n in numbers :: n > 0)
    ensures StaysInOrder(ledger, parallel, Apply(parallel, s, Receive(numbers, readable)))
            <==> !ReachesBelow(s, Receive(numbers, readable))
  {
    var received := Apply(parallel, s, Receive(numbers, readable));
    if ReachesBelow(s, Receive(numbers, readable)) {
      var n := LowestRedone(s, numbers, readable);
      LowestIsSettled(ledger, s, numbers, readable);
      AttemptIsBlockProgram(ledger, n, s.done[n]);
      var after := RedoCrash(ledger, parallel, s, numbers, readable, n, 1);
      NoMessagesNeverReach(parallel, received, CrashAfter(n, s.done[n], 1));
      assert GoesOn(ledger, parallel, received, CrashAfter(n, s.done[n], 1));
      assert !Settled(after, n);
    } else {
      ConsistentStep(parallel, s, Receive(numbers, readable));
      AllSettledStep(parallel, s, Receive(numbers, readable));
      forall steps: seq<Step<Stmt>> | GoesOn(ledger, parallel, received, steps)
        ensures SettledBelow(Run(parallel, received, steps).value, Checkpoint(Run(parallel, received, steps).value) + 1)
      {
        StaysSettled(parallel, received, steps);
      }
    }
  }

  /** What was lost at or below the checkpoint stays lost until a message reaches below it again. */
  lemma {:induction false} RowsStay(
    ledger: Ledger, parallel: nat, start: State<Stmt>, steps: seq<Step<Stmt>>, n: nat)
    requires Consistent(start) && Staked(ledger, start) && FliesAbove(start) && n <= Checkpoint(start)
    requires |Executed(start.trace, n)| != 1 && GoesOn(ledger, parallel, start, steps)
    ensures var after := Run(parallel, start, steps).value;
            && n <= Checkpoint(after)
            && At(TablesAfter(after.trace).deposits, n) == At(TablesAfter(start.trace).deposits, n)
            && At(TablesAfter(after.trace).withdrawals, n) == At(TablesAfter(start.trace).withdrawals, n)
  {
    UntouchedBelow(parallel, start, steps, n);
    ConsistentRun(parallel, start, steps);
    StakedRun(ledger, parallel, start, steps);
    var after := Run(parallel, start, steps).value;
    DepositsOfHeight(start.trace, n);
    DepositsOfHeight(after.trace, n);
    WithdrawalsOfHeight(start.trace, n);
    WithdrawalsOfHeight(after.trace, n);
  }

  /** A run that goes on from `after` leaves height `n` at or below the checkpoint, and without any rows. */
  ghost predicate StaysEmpty(ledger: Ledger, parallel: nat, after: State<Stmt>, n: nat) {
    forall steps: seq<Step<Stmt>> | GoesOn(ledger, parallel, after, steps) ::
      EmptyBelow(Run(parallel, after, steps).value, n)
  }

  ghost predicate EmptyBelow(s: State<Stmt>, n: nat) {
    && n <= Checkpoint(s)
    && At(TablesAfter(s.trace).deposits, n) == [] && At(TablesAfter(s.trace).withdrawals, n) == []
  }

  lemma {:induction false} DeletesOnly(program: seq<Stmt>, n: nat)
    requires IsBlockProgram(program, n)
    ensures DepositsIn(program[..2]) == [] && WithdrawalsIn(program[..2]) == []
  {
    assert program[..2] == [program[0]] + [program[1]];
    DepositsInAppend([program[0]], [program[1]]);
    WithdrawalsInAppend([program[0]], [program[1]]);
    assert [program[0]][..0] == [] && [program[1]][..0] == [];
  }

  /** Rows that some block has cannot be no rows at all. */
  predicate HasRows(b: Block) {
    DepositRows(b, |b.events|) != [] || WithdrawalRows(b, |b.events|) != []
  }

  lemma {:induction false} EmptyIsNotRowsOf(t: Tables, b: Block, attempt: Attempt<Stmt>, read: Block, n: nat)
    requires At(t.deposits, n) == [] && At(t.withdrawals, n) == []
    requires IsReading(b, read) && attempt.program == Program(read)
    ensures HasRowsAsRead(t, b, attempt, n) <==> !HasRows(b)
  {
    SameWithdrawalCount(b, read, |b.events|);
    if HasRowsAsRead(t, b, attempt, n) {
      var other: Block :| IsReading(b, other) && attempt.program == Program(other)
                          && At(t.withdrawals, n) == WithdrawalRows(other, |other.events|);
      SameWithdrawalCount(b, other, |b.events|);
    }
  }

  lemma {:induction false} NoRowsLeft(ledger: Ledger, parallel: nat, before: State<Stmt>, n: nat, after: State<Stmt>)
    requires HalfDone(ledger, before, n, 2, after) && n <= Checkpoint(after)
    requires IsBlockProgram(before.done[n].program, n)
    ensures EmptyBelow(after, n) && StaysEmpty(ledger, parallel, after, n)
  {
    DepositsOfHeight(after.trace, n);
    WithdrawalsOfHeight(after.trace, n);
    DeletesOnly(before.done[n].program, n);
    forall steps: seq<Step<Stmt>> | GoesOn(ledger, parallel, after, steps)
      ensures EmptyBelow(Run(parallel, after, steps).value, n)
    {
      RowsStay(ledger, parallel, after, steps, n);
    }
  }

  /**
   A message that reaches below the checkpoint and a crash right after the deletes of its lowest block
   lose that block's rows for good: the checkpoint stays, and however the loop goes on, until another
   message reaches below the checkpoint, the height has no rows. That is right if and only if the block
   that was processed there has none.
   */
  lemma {:induction false} RedoCrashLosesRows(
    ledger: Ledger, parallel: nat, s: State<Stmt>, numbers: seq<nat>, readable: bool, n: nat)
    returns (after: State<Stmt>)
    requires InOrder(ledger, s) && parallel > 0 && numbers != [] && (forall n | n in numbers :: n > 0)
    requires ReachesBelow(s, Receive(numbers, readable)) && n == LowestRedone(s, numbers, readable)
    ensures n in s.done && s.done[n].hash in ledger
    ensures HasRowsAsRead(TablesAfter(s.trace), ledger[s.done[n].hash], s.done[n], n)
    ensures Run(parallel, Apply(parallel, s, Receive(numbers, readable)), CrashAfter(n, s.done[n], 2)) == Some(after)
    ensures after.phase.Idle? && after.checkpoint == s.checkpoint && after.done == s.done
    ensures StaysEmpty(ledger, parallel, after, n)
    ensures HasRowsAsRead(TablesAfter(after.trace), ledger[s.done[n].hash], s.done[n], n)
            <==> !HasRows(ledger[s.done[n].hash])
  {
    LowestIsSettled(ledger, s, numbers, readable);
    SettledHasRows(ledger, s, n);
    AttemptIsBlockProgram(ledger, n, s.done[n]);
    after := RedoCrash(ledger, parallel, s, numbers, readable, n, 2);
    NoRowsLeft(ledger, parallel, s, n, after);
    var read: Block :| IsReading(ledger[s.done[n].hash], read) && s.done[n].program == Program(read);
    EmptyIsNotRowsOf(TablesAfter(after.trace), ledger[s.done[n].hash], s.done[n], read, n);
  }

  /** Block 1, with one nomination of 5 by nominator 7 with operator 3. */
  const NOMINATION := Block(1, 0, [OperatorNominated(3, 7, 5)])

  /**
   A concrete loss: block 1 is processed, with its deposit; a reorg's message for blocks 1 and 2 then
   reaches below the checkpoint, and after a crash the deposit is gone for good, whatever is received
   later that does not reach below the checkpoint.
   */
  lemma {:induction false} DepositIsLost()
    returns (s: State<Stmt>, after: State<Stmt>, steps: seq<Step<Stmt>>)
    ensures Handles(1, Initial<Stmt>(), [1], steps) && s == AfterMessage(1, Initial<Stmt>(), [1], steps)
    ensures s.checkpoint == Some(1) && HasRowsOf(TablesAfter(s.trace), NOMINATION, 1)
    ensures ReachesBelow(s, Receive([1, 2], true))
    ensures 1 in s.done
            && Run(1, Apply(1, s, Receive([1, 2], true)), CrashAfter(1, s.done[1], 2)) == Some(after)
    ensures after.checkpoint == Some(1) && !HasRowsOf(TablesAfter(after.trace), NOMINATION, 1)
    ensures StaysEmpty(map[1 := NOMINATION], 1, after, 1)
  {
    var ledger: Ledger := map[1 := NOMINATION];
    var attempt := Attempt(1, Program(NOMINATION));
    assert IsReading(NOMINATION, NOMINATION);
    assert StakingAttempt(ledger, 1, attempt);
    steps := CanHandle(1, Initial<Stmt>(), [1], map[1 := attempt]);
    s := AfterMessage(1, Initial<Stmt>(), [1], steps);
    HandledMessage(1, Initial<Stmt>(), [1], steps);
    HandledMessageSettles(1, Initial<Stmt>(), [1], steps);
    StakedRun(ledger, 1, Apply(1, Initial<Stmt>(), Receive([1], true)), steps);
    assert s.checkpoint == Some(1) && 1 in s.done;
    assert RangeOf([1, 2], 1) == Range(1, 2);
    assert s.done[1].hash == 1;
    SettledHasRows(ledger, s, 1);
    assert SameEntries(NOMINATION, NOMINATION, 1);
    after := RedoCrashLosesRows(ledger, 1, s, [1, 2], true, 1);
    assert DepositRows(NOMINATION, 0) == [];
  }

  // At rest

  lemma {:induction false} StakingStepsMake(ledger: Ledger, steps: seq<Step<Stmt>>)
    requires StakingSteps(ledger, steps)
    ensures MakesFrom(ReadingsOfAll(ledger.Values), steps)
  {
    forall i | 0 <= i < |steps| && steps[i].Begin?
      ensures (steps[i].n, steps[i].attempt.program) in ReadingsOfAll(ledger.Values)
    {
      assert StakingAttempt(ledger, steps[i].n, steps[i].attempt);
    }
  }

  /**
   Convergence at rest. Whenever every height that was started has been completed by its latest
   attempt, the nominators table is that of processing those attempts one by one in ascending order if
   and only if no abandoned attempt's write has outlived them. Every operator's count is the number of its
   active nominators, if the blocks of one height bear on it alike.
   */
  lemma {:induction false} ConvergedAtRest(
    ledger: Ledger, parallel: nat, steps: seq<Step<Stmt>>, s: State<Stmt>, top: nat, id: OperatorId)
    requires Run(parallel, Initial<Stmt>(), steps) == Some(s) && StakingSteps(ledger, steps)
    requires AllComplete(s.trace) && StartsBelow(s.trace, top)
    ensures TablesAfter(s.trace).nominators == TablesAfter(OneByOne(LatestAttempts(s.trace, top))).nominators
            <==> AllOwned(s.trace)
    ensures BearAlike(ledger.Values, id) ==> CountIsRight(TablesAfter(s.trace), id)
  {
    ConsistentRun(parallel, Initial<Stmt>(), steps);
    StakedRun(ledger, parallel, Initial<Stmt>(), steps);
    NominatorsAsIfOneByOne(s.trace, top);
    StakingStepsMake(ledger, steps);
    RestIsComplete(ReadingsOfAll(ledger.Values), parallel, steps, s);
    CountsStayRightIff(ledger.Values, id);
    FromEmpty(s.trace);
  }

  /** A run that never reaches below is at rest once no started height is above the checkpoint. */
  lemma {:induction false} AtRestBelowCheckpoint(
    ledger: Ledger, parallel: nat, steps: seq<Step<Stmt>>, s: State<Stmt>)
    requires Run(parallel, Initial<Stmt>(), steps) == Some(s) && StakingSteps(ledger, steps)
    requires NeverReachesBelow(parallel, Initial<Stmt>(), steps)
    requires forall n: nat | Started(s.trace, n) :: 1 <= n <= Checkpoint(s)
    ensures AllComplete(s.trace)
  {
    StaysSettled(parallel, Initial<Stmt>(), steps);
    StakedRun(ledger, parallel, Initial<Stmt>(), steps);
    forall n: nat
      ensures Complete(s.trace, n)
    {
      if Started(s.trace, n) {
        assert Settled(s, n);
        AttemptIsBlockProgram(ledger, n, s.done[n]);
        LatestWasRun(s.trace, n);
      }
    }
  }

  // On a fixed chain

  ghost predicate MakesFrom(attempts: Attempts, steps: seq<Step<Stmt>>) {
    forall i | 0 <= i < |steps| && steps[i].Begin? :: (steps[i].n, steps[i].attempt.program) in attempts
  }

  ghost predicate MadeIn(attempts: Attempts, s: State<Stmt>) {
    && MadeFrom(s.trace, attempts)
    && (s.phase.Working? ==> forall n | n in s.phase.inFlight :: (n, s.phase.inFlight[n].attempt.program) in attempts)
  }

  lemma {:induction false} MakesOn(attempts: Attempts, parallel: nat, start: State<Stmt>, steps: seq<Step<Stmt>>)
    requires MadeIn(attempts, start) && MakesFrom(attempts, steps) && Run(parallel, start, steps).Some?
    ensures MadeIn(attempts, Run(parallel, start, steps).value)
  {
    if steps != [] {
      var init, last := steps[..|steps| - 1], steps[|steps| - 1];
      assert MakesFrom(attempts, init) by {
        assert forall i | 0 <= i < |init| :: init[i] == steps[i];
      }
      MakesOn(attempts, parallel, start, init);
      var s := Run(parallel, start, init).value;
      if last.Execute? {
        assert (last.n, s.phase.inFlight[last.n].attempt.program) in attempts;
      }
    }
  }

  /** A run at rest is a complete schedule of the attempts it made. */
  lemma {:induction false} RestIsComplete(attempts: Attempts, parallel: nat, steps: seq<Step<Stmt>>, s: State<Stmt>)
    requires Run(parallel, Initial<Stmt>(), steps) == Some(s) && MakesFrom(attempts, steps) && AllComplete(s.trace)
    ensures CompletedFrom(s.trace, attempts)
  {
    ConsistentRun(parallel, Initial<Stmt>(), steps);
    MakesOn(attempts, parallel, Initial<Stmt>(), steps);
  }

  /** The chain's programs of the heights that were started. */
  function StartedPrograms(chain: seq<Block>, trace: seq<Ran<Stmt>>): (programs: seq<seq<Stmt>>)
    ensures |programs| == |chain|
    ensures forall n | 0 <= n < |chain| :: programs[n] == if Started(trace, n) then Program(chain[n]) else []
  {
    seq(|chain|, n requires 0 <= n < |chain| => if Started(trace, n) then Program(chain[n]) else [])
  }

  lemma {:induction false} SequentialAt(chain: seq<Block>, trace: seq<Ran<Stmt>>, n: nat)
    requires Numbered(chain) && CompletedFrom(trace, ReadingsOf(chain))
    ensures var sequential := OneByOne(StartedPrograms(chain, trace));
            IsSchedule(sequential) && Complete(sequential, n) && (Started(trace, n) <==> Started(sequential, n))
  {
    OneByOneIsSchedule(StartedPrograms(chain, trace), n);
    if Started(trace, n) {
      LatestWasRun(trace, n);
      ProgramNotEmpty(chain[n]);
    }
  }

  lemma ProgramNotEmpty(b: Block)
    ensures Program(b) != []
  {
    ProgramIsBlockProgram(b);
  }

  lemma {:induction false} SequentialIsMade(chain: seq<Block>, trace: seq<Ran<Stmt>>)
    requires Numbered(chain) && CompletedFrom(trace, ReadingsOf(chain))
    ensures CompletedFrom(OneByOne(StartedPrograms(chain, trace)), ReadingsOf(chain))
    ensures SameStarted(trace, OneByOne(StartedPrograms(chain, trace)))
  {
    var programs := StartedPrograms(chain, trace);
    SequentialAt(chain, trace, 0);
    forall n: nat
      ensures Complete(OneByOne(programs), n) && (Started(trace, n) <==> Started(OneByOne(programs), n))
    {
      SequentialAt(chain, trace, n);
    }
    forall ran | ran in OneByOne(programs)
      ensures (ran.block, ran.program) in ReadingsOf(chain)
    {
      OneByOneRuns(programs, ran);
      BothReadings(chain, ran.block, NominatorKey(0, 0));
    }
  }

  /**
   On a fixed chain in which no decision hangs on a read that may fail, a run that has come to rest,
   however it interleaved and wherever it crashed, has the nominators of processing the started blocks one
   by one in ascending order with all reads succeeding. And if no recount hangs on a read, all its counts
   are right.
   */
  lemma {:induction false} RunIsAsIfOneByOne(
    chain: seq<Block>, parallel: nat, steps: seq<Step<Stmt>>, s: State<Stmt>)
    requires Numbered(chain) && AllComplete(s.trace)
    requires Run(parallel, Initial<Stmt>(), steps) == Some(s) && MakesFrom(ReadingsOf(chain), steps)
    ensures NoDecisionHangs(chain) ==>
              TablesAfter(s.trace).nominators == TablesAfter(OneByOne(StartedPrograms(chain, s.trace))).nominators
    ensures NoRecountHangs(chain) ==> forall id :: CountIsRight(TablesAfter(s.trace), id)
  {
    RestIsComplete(ReadingsOf(chain), parallel, steps, s);
    SequentialIsMade(chain, s.trace);
    ConvergesIffNoDecisionHangs(chain);
    CountsAlwaysRightIff(chain);
  }

  /** Two such runs that have started the same heights have the same nominators, and both have right counts. */
  lemma {:induction false} RunsConverge(
    chain: seq<Block>, p: nat, steps: seq<Step<Stmt>>, s: State<Stmt>,
    p': nat, steps': seq<Step<Stmt>>, s': State<Stmt>)
    requires Numbered(chain) && SameStarted(s.trace, s'.trace) && AllComplete(s.trace) && AllComplete(s'.trace)
    requires Run(p, Initial<Stmt>(), steps) == Some(s) && MakesFrom(ReadingsOf(chain), steps)
    requires Run(p', Initial<Stmt>(), steps') == Some(s') && MakesFrom(ReadingsOf(chain), steps')
    ensures NoDecisionHangs(chain) ==> TablesAfter(s.trace).nominators == TablesAfter(s'.trace).nominators
    ensures NoRecountHangs(chain) ==>
              forall id :: CountIsRight(TablesAfter(s.trace), id) && CountIsRight(TablesAfter(s'.trace), id)
  {
    RestIsComplete(ReadingsOf(chain), p, steps, s);
    RestIsComplete(ReadingsOf(chain), p', steps', s');
    ConvergesIffNoDecisionHangs(chain);
    CountsAlwaysRightIff(chain);
  }

  // Cross-domain transfers

  /** The events a schedule has stored, in the order of its statements. */
  function EventsOf(trace: seq<Ran<Xdm.Stored>>): seq<Xdm.Stored> {
    if trace == [] then []
    else
      var last := trace[|trace| - 1];
      EventsOf(trace[..|trace| - 1]) + if last.index < |last.program| then [last.program[last.index]] else []
  }

  lemma {:induction false} EventsOfTrace(trace: seq<Ran<Xdm.Stored>>, s: Xdm.Stored)
    ensures s in EventsOf(trace) <==>
            exists ran | ran in trace :: ran.index < |ran.program| && ran.program[ran.index] == s
  {
    if trace != [] {
      var init, last := trace[..|trace| - 1], trace[|trace| - 1];
      EventsOfTrace(init, s);
      assert trace == init + [last];
      if s in EventsOf(init) {
        var ran :| ran in init && ran.index < |ran.program| && ran.program[ran.index] == s;
        assert ran in trace;
      }
    }
  }

  /** Every attempt at a height stores the events of the one block the chain has there. */
  ghost predicate StoresChain(programs: seq<seq<Xdm.Stored>>, trace: seq<Ran<Xdm.Stored>>) {
    forall ran | ran in trace :: ran.block < |programs| && ran.program == programs[ran.block]
  }

  /** A complete schedule has stored all events of the blocks it started, and no others. */
  lemma {:induction false} CompleteStoresAll(
    programs: seq<seq<Xdm.Stored>>, trace: seq<Ran<Xdm.Stored>>, s: Xdm.Stored)
    requires IsSchedule(trace) && AllComplete(trace) && StoresChain(programs, trace)
    ensures s in EventsOf(trace) <==> exists n | 0 <= n < |programs| :: Started(trace, n) && s in programs[n]
  {
    EventsOfTrace(trace, s);
    if s in EventsOf(trace) {
      var ran :| ran in trace && ran.index < |ran.program| && ran.program[ran.index] == s;
      RunWasStarted(trace, ran);
      assert Started(trace, ran.block) && s in programs[ran.block];
    }
    if n :| 0 <= n < |programs| && Started(trace, n) && s in programs[n] {
      var i :| 0 <= i < |programs[n]| && programs[n][i] == s;
      LatestWasRun(trace, n);
      assert Complete(trace, n) && Attempted(trace, n) == programs[n];
      ExecutedWasRun(trace, n, i);
    }
  }

  /** `merged` interleaves, in any way, what the two chains' processors store. */
  ghost predicate Merges(merged: seq<Xdm.Stored>, consensus: seq<Xdm.Stored>, domain: seq<Xdm.Stored>) {
    forall s :: s in merged <==> s in consensus || s in domain
  }

  /** A complete schedule over the blocks of one fixed chain. */
  ghost predicate StoredInFull(programs: seq<seq<Xdm.Stored>>, trace: seq<Ran<Xdm.Stored>>) {
    IsSchedule(trace) && AllComplete(trace) && StoresChain(programs, trace)
  }

  /**
   Both chains' transfer processors converge: for a conflict-free event log, any two pairs of complete
   schedules over the same blocks, interleaved in any way, leave the same transfers table.
   */
  lemma {:induction false} TransfersConverge(
    consensus: seq<seq<Xdm.Stored>>, domain: seq<seq<Xdm.Stored>>,
    a: seq<Ran<Xdm.Stored>>, b: seq<Ran<Xdm.Stored>>, x: seq<Xdm.Stored>,
    a': seq<Ran<Xdm.Stored>>, b': seq<Ran<Xdm.Stored>>, x': seq<Xdm.Stored>)
    requires StoredInFull(consensus, a) && StoredInFull(consensus, a') && SameStarted(a, a')
    requires StoredInFull(domain, b) && StoredInFull(domain, b') && SameStarted(b, b')
    requires Merges(x, EventsOf(a), EventsOf(b))
    requires Merges(x', EventsOf(a'), EventsOf(b'))
    requires Xdm.ConflictFree(x)
    ensures Xdm.StoreAll(map[], x) == Xdm.StoreAll(map[], x')
  {
    forall s
      ensures s in x <==> s in x'
    {
      CompleteStoresAll(consensus, a, s);
      CompleteStoresAll(consensus, a', s);
      CompleteStoresAll(domain, b, s);
      CompleteStoresAll(domain, b', s);
    }
    Xdm.SameEventsSameTable(x, x');
  }
}
