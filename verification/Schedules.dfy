/**
 Interleavings of per-block statement sequences.

 Blocks are processed concurrently, and an attempt at a block may be abandoned half-way (a crash or
 an error) and later restarted from its first statement. A schedule is the resulting order of
 executed statements; nothing else is assumed about it. Every attempt has its own statements: two
 attempts at a height may differ because the chain changed in between or because a read failed.
 */
module Schedules {
  import opened Outcomes
  import opened Tables

  /** The `index`-th statement of an attempt at the block of height `block` was executed. */
  datatype Ran<+T> = Ran(block: nat, index: nat, program: seq<T>)

  /** The last statement executed for a height. */
  function Latest<T>(trace: seq<Ran<T>>, n: nat): Option<Ran<T>> {
    if trace == [] then None
    else if trace[|trace| - 1].block == n then Some(trace[|trace| - 1])
    else Latest(trace[..|trace| - 1], n)
  }

  /** What the most recent attempt at a height has executed. */
  function Executed<T>(trace: seq<Ran<T>>, n: nat): seq<T> {
    match Latest(trace, n)
    case None => []
    case Some(ran) => if ran.index < |ran.program| then ran.program[..ran.index + 1] else ran.program
  }

  /** All statements of the most recent attempt at a height. */
  function Attempted<T>(trace: seq<Ran<T>>, n: nat): seq<T> {
    match Latest(trace, n)
    case None => []
    case Some(ran) => ran.program
  }

  /** A statement may run when its attempt starts with it, or when it is the attempt's next one. */
  ghost predicate MayRun<T>(trace: seq<Ran<T>>, ran: Ran<T>) {
    && ran.index < |ran.program|
    && (ran.index > 0 ==> Latest(trace, ran.block) == Some(Ran(ran.block, ran.index - 1, ran.program)))
  }

  ghost predicate IsSchedule<T>(trace: seq<Ran<T>>) {
    trace == [] || (IsSchedule(trace[..|trace| - 1]) && MayRun(trace[..|trace| - 1], trace[|trace| - 1]))
  }

  /** The most recent attempt at the height, if any, executed all of its statements. */
  ghost predicate Complete<T>(trace: seq<Ran<T>>, n: nat) {
    Executed(trace, n) == Attempted(trace, n)
  }

  /** Some statement for the height was ever executed. */
  predicate Started<T>(trace: seq<Ran<T>>, n: nat) {
    Latest(trace, n).Some?
  }

  /** Every height that was ever started has been completed by its latest attempt. */
  ghost predicate AllComplete<T>(trace: seq<Ran<T>>) {
    forall n: nat :: Complete(trace, n)
  }

  ghost predicate SameStarted<T>(a: seq<Ran<T>>, b: seq<Ran<T>>) {
    forall n: nat :: Started(a, n) <==> Started(b, n)
  }

  lemma {:induction false} LatestWasRun<T>(trace: seq<Ran<T>>, n: nat)
    requires IsSchedule(trace) && Started(trace, n)
    ensures var ran := Latest(trace, n).value;
            ran in trace && ran.block == n && ran.index < |ran.program|
  {
    var init, last := trace[..|trace| - 1], trace[|trace| - 1];
    assert trace == init + [last];
    if last.block != n {
      LatestWasRun(init, n);
    }
  }

  lemma {:induction false} RunWasStarted<T>(trace: seq<Ran<T>>, ran: Ran<T>)
    requires ran in trace
    ensures Started(trace, ran.block)
  {
    var init, last := trace[..|trace| - 1], trace[|trace| - 1];
    assert trace == init + [last];
    if last.block != ran.block {
      RunWasStarted(init, ran);
    }
  }

  /** An attempt that executed a statement executed all its statements before it. */
  lemma {:induction false} EarlierWereRun<T>(trace: seq<Ran<T>>, ran: Ran<T>, i: nat)
    requires IsSchedule(trace) && ran in trace && i <= ran.index
    ensures ran.index < |ran.program| && Ran(ran.block, i, ran.program) in trace
    decreases |trace|, ran.index
  {
    var init, last := trace[..|trace| - 1], trace[|trace| - 1];
    assert trace == init + [last];
    if ran in init {
      EarlierWereRun(init, ran, i);
    } else if i < ran.index {
      var before := Ran(ran.block, ran.index - 1, ran.program);
      LatestWasRun(init, ran.block);
      EarlierWereRun(init, before, i);
    } else {
      assert Ran(ran.block, i, ran.program) == ran;
    }
  }

  /** What the most recent attempt has executed was executed by it, at its place. */
  lemma {:induction false} ExecutedWasRun<T>(trace: seq<Ran<T>>, n: nat, i: nat)
    requires IsSchedule(trace) && i < |Executed(trace, n)|
    ensures i < |Attempted(trace, n)| && Executed(trace, n)[i] == Attempted(trace, n)[i]
    ensures Ran(n, i, Attempted(trace, n)) in trace
  {
    LatestWasRun(trace, n);
    EarlierWereRun(trace, Latest(trace, n).value, i);
  }

  function TablesAfter(trace: seq<Ran<Stmt>>): Tables {
    if trace == [] then EMPTY
    else
      var before, last := TablesAfter(trace[..|trace| - 1]), trace[|trace| - 1];
      if last.index < |last.program| then Exec(before, last.program[last.index]) else before
  }

  // What the tables rely on in a block's program

  predicate WritesAtHeight(stmt: Stmt, height: nat) {
    match stmt
    case DeleteDeposits(h) => h == height
    case DeleteWithdrawals(h) => h == height
    case InsertDeposit(row) => row.height == height
    case InsertWithdrawal(row) => row.height == height
    case UpsertNominator(_, _, h) => h == height
    case _ => true
  }

  /** The statement leaves an operator's count to be recomputed. */
  predicate Unsettles(stmt: Stmt, operatorId: OperatorId) {
    || (stmt.UpsertNominator? && stmt.key.operatorId == operatorId)
    || (stmt.UpsertOperator? && stmt.operatorId == operatorId)
  }

  predicate RecountsAfter(program: seq<Stmt>, from: nat, operatorId: OperatorId) {
    exists j | from <= j < |program| :: program[j] == RecountNominators(operatorId)
  }

  /** After each statement that unsettles an operator's count comes a recount of it. */
  ghost predicate Recounted(program: seq<Stmt>) {
    forall i, id | 0 <= i < |program| && Unsettles(program[i], id) :: RecountsAfter(program, i + 1, id)
  }

  /** Deletes first and only there, everything written for the block's own height, counts redone. */
  ghost predicate IsBlockProgram(program: seq<Stmt>, height: nat) {
    && |program| >= 2
    && program[0] == DeleteDeposits(height)
    && program[1] == DeleteWithdrawals(height)
    && (forall i | 2 <= i < |program| :: !program[i].DeleteDeposits? && !program[i].DeleteWithdrawals?)
    && (forall i | 0 <= i < |program| :: WritesAtHeight(program[i], height))
    && Recounted(program)
  }

  /** Every attempt in the trace runs the statements of some block of its height. */
  ghost predicate RunsBlockPrograms(trace: seq<Ran<Stmt>>) {
    trace == [] ||
    (RunsBlockPrograms(trace[..|trace| - 1]) && IsBlockProgram(trace[|trace| - 1].program, trace[|trace| - 1].block))
  }

  lemma {:induction false} RanBlockProgram(trace: seq<Ran<Stmt>>, ran: Ran<Stmt>)
    requires RunsBlockPrograms(trace) && ran in trace
    ensures IsBlockProgram(ran.program, ran.block)
  {
    var init, last := trace[..|trace| - 1], trace[|trace| - 1];
    assert trace == init + [last];
    if ran != last {
      RanBlockProgram(init, ran);
    }
  }

  // Deposits and withdrawals

  function DepositsIn(stmts: seq<Stmt>): seq<Row<Deposit>> {
    if stmts == [] then []
    else
      var init := DepositsIn(stmts[..|stmts| - 1]);
      if stmts[|stmts| - 1].InsertDeposit? then init + [stmts[|stmts| - 1].deposit] else init
  }

  function WithdrawalsIn(stmts: seq<Stmt>): seq<Row<Withdrawal>> {
    if stmts == [] then []
    else
      var init := WithdrawalsIn(stmts[..|stmts| - 1]);
      if stmts[|stmts| - 1].InsertWithdrawal? then init + [stmts[|stmts| - 1].withdrawal] else init
  }

  /** One more statement executed by the latest attempt, or by another height's, or by a new attempt. */
  lemma {:induction false} ExecutedStep<T>(trace: seq<Ran<T>>, n: nat)
    requires IsSchedule(trace) && trace != []
    ensures var before, last := Executed(trace[..|trace| - 1], n), trace[|trace| - 1];
            && last.index < |last.program|
            && Executed(trace, n) == if last.block != n then before
                                     else if last.index == 0 then [last.program[0]]
                                     else before + [last.program[last.index]]
  {
    var last := trace[|trace| - 1];
    if last.index > 0 {
      assert last.program[..last.index + 1] == last.program[..last.index] + [last.program[last.index]];
    }
  }

  lemma {:induction false} DepositRowsStep(t: Tables, stmt: Stmt, height: nat, n: nat)
    requires WritesAtHeight(stmt, height)
    ensures At(Exec(t, stmt).deposits, n)
            == if height != n then At(t.deposits, n)
               else if stmt.DeleteDeposits? then []
               else At(t.deposits, n) + DepositsIn([stmt])
  {
    assert [stmt][..0] == [];
    if stmt.DeleteDeposits? {
      DeleteAt(t.deposits, stmt.height, n);
    } else if stmt.InsertDeposit? {
      InsertAt(t.deposits, stmt.deposit, n);
    }
  }

  lemma {:induction false} WithdrawalRowsStep(t: Tables, stmt: Stmt, height: nat, n: nat)
    requires WritesAtHeight(stmt, height)
    ensures At(Exec(t, stmt).withdrawals, n)
            == if height != n then At(t.withdrawals, n)
               else if stmt.DeleteWithdrawals? then []
               else At(t.withdrawals, n) + WithdrawalsIn([stmt])
  {
    assert [stmt][..0] == [];
    if stmt.DeleteWithdrawals? {
      DeleteAt(t.withdrawals, stmt.height, n);
    } else if stmt.InsertWithdrawal? {
      InsertAt(t.withdrawals, stmt.withdrawal, n);
    }
  }

  /**
   In every schedule, the deposit rows of a height are exactly those its most recent attempt has
   inserted, in order: rows of abandoned attempts are gone.
   */
  lemma {:induction false} DepositsOfHeight(trace: seq<Ran<Stmt>>, n: nat)
    requires IsSchedule(trace) && RunsBlockPrograms(trace)
    ensures At(TablesAfter(trace).deposits, n) == DepositsIn(Executed(trace, n))
  {
    if trace != [] {
      var init, last := trace[..|trace| - 1], trace[|trace| - 1];
      DepositsOfHeight(init, n);
      ExecutedStep(trace, n);
      var stmt := last.program[last.index];
      assert WritesAtHeight(stmt, last.block);
      DepositRowsStep(TablesAfter(init), stmt, last.block, n);
      DepositsInAppend(Executed(init, n), [stmt]);
      assert [stmt][..0] == [];
    }
  }

  /** Likewise for withdrawals, once the attempt is past its first two statements, the deletes. */
  lemma {:induction false} WithdrawalsOfHeight(trace: seq<Ran<Stmt>>, n: nat)
    requires IsSchedule(trace) && RunsBlockPrograms(trace)
    ensures |Executed(trace, n)| != 1 ==>
              At(TablesAfter(trace).withdrawals, n) == WithdrawalsIn(Executed(trace, n))
  {
    if trace != [] {
      var init, last := trace[..|trace| - 1], trace[|trace| - 1];
      WithdrawalsOfHeight(init, n);
      ExecutedStep(trace, n);
      var stmt := last.program[last.index];
      assert WritesAtHeight(stmt, last.block);
      WithdrawalRowsStep(TablesAfter(init), stmt, last.block, n);
      WithdrawalsInAppend(Executed(init, n), [stmt]);
      if last.block == n && last.index == 1 {
        assert Executed(init, n) == [last.program[0]] && [last.program[0]][..0] == [];
        assert WithdrawalsIn([last.program[0]]) == [] && WithdrawalsIn([stmt]) == [];
      }
    }
  }

  lemma {:induction false} WithdrawalsInAppend(a: seq<Stmt>, b: seq<Stmt>)
    ensures WithdrawalsIn(a + b) == WithdrawalsIn(a) + WithdrawalsIn(b)
    decreases |b|
  {
    if b == [] {
      assert a + b == a;
    } else {
      WithdrawalsInAppend(a, b[..|b| - 1]);
      assert (a + b)[..|a + b| - 1] == a + b[..|b| - 1];
    }
  }

  lemma {:induction false} DepositsInAppend(a: seq<Stmt>, b: seq<Stmt>)
    ensures DepositsIn(a + b) == DepositsIn(a) + DepositsIn(b)
    decreases |b|
  {
    if b == [] {
      assert a + b == a;
    } else {
      DepositsInAppend(a, b[..|b| - 1]);
      assert (a + b)[..|a + b| - 1] == a + b[..|b| - 1];
    }
  }

  lemma NothingAdded<T>(a: seq<T>, b: seq<T>)
    ensures a == a + b <==> b == []
  {
    assert a == a + b ==> |b| == 0;
  }

  /** A height's deposit rows are those of its latest attempt exactly when no insert is outstanding. */
  lemma {:induction false} DepositsRightIffNoneOutstanding(trace: seq<Ran<Stmt>>, n: nat)
    requires IsSchedule(trace) && RunsBlockPrograms(trace)
    ensures |Executed(trace, n)| <= |Attempted(trace, n)|
    ensures (At(TablesAfter(trace).deposits, n) == DepositsIn(Attempted(trace, n)))
            <==> (DepositsIn(Attempted(trace, n)[|Executed(trace, n)|..]) == [])
  {
    var all, done := Attempted(trace, n), Executed(trace, n);
    assert all[..|done|] == done;
    var left := all[|done|..];
    assert all == done + left;
    DepositsOfHeight(trace, n);
    DepositsInAppend(done, left);
    NothingAdded(DepositsIn(done), DepositsIn(left));
  }

  /** A completed height has exactly the deposit and withdrawal rows of its latest attempt, each once. */
  lemma {:induction false} CompleteBlockHasItsRows(trace: seq<Ran<Stmt>>, n: nat)
    requires IsSchedule(trace) && RunsBlockPrograms(trace) && Complete(trace, n)
    ensures At(TablesAfter(trace).deposits, n) == DepositsIn(Attempted(trace, n))
    ensures At(TablesAfter(trace).withdrawals, n) == WithdrawalsIn(Attempted(trace, n))
  {
    if Started(trace, n) {
      LatestWasRun(trace, n);
      RanBlockProgram(trace, Latest(trace, n).value);
    }
    DepositsOfHeight(trace, n);
    WithdrawalsOfHeight(trace, n);
  }
}
