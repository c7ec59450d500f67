/** The rows an indexed block leaves, event by event and column by column. */
module StakingRows {
  import opened Schedules
  import opened Staking
  import opened Tables

  // Positions

  function NominationsBefore(events: seq<Event>, i: nat): nat
    requires i <= |events|
  {
    |set j | 0 <= j < i && events[j].OperatorNominated?|
  }

  function WithdrawalsBefore(events: seq<Event>, i: nat): nat
    requires i <= |events|
  {
    |set j | 0 <= j < i && events[j].WithdrewStake?|
  }

  /** The nominations of one pair among the first events. */
  function PairNominationsBefore(events: seq<Event>, operatorId: OperatorId, nominator: Address, i: nat): nat
    requires i <= |events|
  {
    |set j | 0 <= j < i && events[j].OperatorNominated?
             && events[j].operatorId == operatorId && events[j].nominator == nominator|
  }

  /** The storage fees of one pair among the first events. */
  function PairFeesBefore(events: seq<Event>, operatorId: OperatorId, nominator: Address, i: nat): nat
    requires i <= |events|
  {
    |set j | 0 <= j < i && events[j].StorageFeeDeposited?
             && events[j].operatorId == operatorId && events[j].nominator == nominator|
  }

  lemma OneMoreBefore(events: seq<Event>, i: nat)
    requires i < |events|
    ensures NominationsBefore(events, i + 1)
            == NominationsBefore(events, i) + if events[i].OperatorNominated? then 1 else 0
    ensures WithdrawalsBefore(events, i + 1)
            == WithdrawalsBefore(events, i) + if events[i].WithdrewStake? then 1 else 0
  {
    var n := set j | 0 <= j < i && events[j].OperatorNominated?;
    var w := set j | 0 <= j < i && events[j].WithdrewStake?;
    assert (set j | 0 <= j < i + 1 && events[j].OperatorNominated?)
        == if events[i].OperatorNominated? then n + {i} else n;
    assert (set j | 0 <= j < i + 1 && events[j].WithdrewStake?) == if events[i].WithdrewStake? then w + {i} else w;
  }

  lemma OneMoreNomination(events: seq<Event>, operatorId: OperatorId, nominator: Address, i: nat)
    requires i < |events|
    ensures PairNominationsBefore(events, operatorId, nominator, i + 1)
            == PairNominationsBefore(events, operatorId, nominator, i)
               + if Nominates(events[i], NominatorKey(operatorId, nominator)) then 1 else 0
  {
    var n := set j | 0 <= j < i && events[j].OperatorNominated?
                     && events[j].operatorId == operatorId && events[j].nominator == nominator;
    assert (set j | 0 <= j < i + 1 && events[j].OperatorNominated?
                    && events[j].operatorId == operatorId && events[j].nominator == nominator)
        == if Nominates(events[i], NominatorKey(operatorId, nominator)) then n + {i} else n;
  }

  lemma OneMoreFee(events: seq<Event>, operatorId: OperatorId, nominator: Address, i: nat)
    requires i < |events|
    ensures PairFeesBefore(events, operatorId, nominator, i + 1)
            == PairFeesBefore(events, operatorId, nominator, i)
               + if events[i].StorageFeeDeposited? && events[i].operatorId == operatorId
                    && events[i].nominator == nominator then 1 else 0
  {
    var f := set j | 0 <= j < i && events[j].StorageFeeDeposited?
                     && events[j].operatorId == operatorId && events[j].nominator == nominator;
    assert (set j | 0 <= j < i + 1 && events[j].StorageFeeDeposited?
                    && events[j].operatorId == operatorId && events[j].nominator == nominator)
        == if events[i].StorageFeeDeposited? && events[i].operatorId == operatorId
              && events[i].nominator == nominator then f + {i} else f;
  }

  // Fees

  lemma {:induction false} NominationsAreCounted(events: seq<Event>, operatorId: OperatorId, nominator: Address, i: nat)
    requires i <= |events|
    ensures NominationCount(events[..i], NominatorKey(operatorId, nominator))
            == PairNominationsBefore(events, operatorId, nominator, i)
  {
    if i > 0 {
      NominationsAreCounted(events, operatorId, nominator, i - 1);
      OneMoreNomination(events, operatorId, nominator, i - 1);
      assert events[..i][..i - 1] == events[..i - 1];
    }
  }

  /** A pair's fees are as many as its fee events, each at the place of its event among them. */
  lemma {:induction false} FeesByEvent(events: seq<Event>, operatorId: OperatorId, nominator: Address, n: nat)
    requires n <= |events|
    ensures var fees := FeesFor(events[..n], NominatorKey(operatorId, nominator));
            && |fees| == PairFeesBefore(events, operatorId, nominator, n)
            && forall e | 0 <= e < n && events[e].StorageFeeDeposited?
                          && events[e].operatorId == operatorId && events[e].nominator == nominator ::
                 && PairFeesBefore(events, operatorId, nominator, e) < |fees|
                 && fees[PairFeesBefore(events, operatorId, nominator, e)] == events[e].amount
  {
    if n > 0 {
      FeesByEvent(events, operatorId, nominator, n - 1);
      OneMoreFee(events, operatorId, nominator, n - 1);
      assert events[..n][..n - 1] == events[..n - 1];
    }
  }

  // Rows

  lemma {:induction false} DepositRowAt(b: Block, n: nat, i: nat)
    requires i < n <= |b.events| && b.events[i].OperatorNominated?
    ensures |DepositRows(b, n)| == NominationsBefore(b.events, n)
    ensures NominationsBefore(b.events, i) < |DepositRows(b, n)|
    ensures DepositRows(b, n)[NominationsBefore(b.events, i)] == DepositRow(b, i)
  {
    DepositRowCount(b, n - 1);
    OneMoreBefore(b.events, n - 1);
    if i < n - 1 {
      DepositRowAt(b, n - 1, i);
    }
  }

  lemma {:induction false} DepositRowCount(b: Block, n: nat)
    requires n <= |b.events|
    ensures |DepositRows(b, n)| == NominationsBefore(b.events, n)
  {
    if n > 0 {
      DepositRowCount(b, n - 1);
      OneMoreBefore(b.events, n - 1);
    }
  }

  lemma {:induction false} WithdrawalRowCount(b: Block, n: nat)
    requires n <= |b.events|
    ensures |WithdrawalRows(b, n)| == WithdrawalsBefore(b.events, n)
  {
    if n > 0 {
      WithdrawalRowCount(b, n - 1);
      OneMoreBefore(b.events, n - 1);
    }
  }

  lemma {:induction false} WithdrawalRowAt(b: Block, n: nat, i: nat)
    requires i < n <= |b.events| && b.events[i].WithdrewStake?
    ensures WithdrawalsBefore(b.events, i) < |WithdrawalRows(b, n)|
    ensures WithdrawalRows(b, n)[WithdrawalsBefore(b.events, i)] == WithdrawalRow(b, i)
  {
    WithdrawalRowCount(b, n - 1);
    if i < n - 1 {
      WithdrawalRowAt(b, n - 1, i);
    }
  }

  lemma {:induction false} DepositStep(
    t: Tables, so: Tables, before: seq<Stmt>, stmt: Stmt, height: nat, n: nat)
    requires WritesAtHeight(stmt, height) && (stmt.DeleteDeposits? <==> before == [])
    requires At(so.deposits, n) == if n != height || before == [] then At(t.deposits, n) else DepositsIn(before)
    ensures At(Exec(so, stmt).deposits, n) == if n != height then At(t.deposits, n) else DepositsIn(before + [stmt])
  {
    DepositRowsStep(so, stmt, height, n);
    DepositsInAppend(before, [stmt]);
    assert [stmt][..0] == [];
  }

  lemma {:induction false} WithdrawalStep(
    t: Tables, so: Tables, before: seq<Stmt>, stmt: Stmt, height: nat, n: nat)
    requires WritesAtHeight(stmt, height) && (stmt.DeleteWithdrawals? <==> |before| == 1)
    requires |before| <= 1 ==> WithdrawalsIn(before) == [] && !stmt.InsertWithdrawal?
    requires At(so.withdrawals, n)
             == if n != height || |before| < 2 then At(t.withdrawals, n) else WithdrawalsIn(before)
    ensures At(Exec(so, stmt).withdrawals, n)
            == if n != height || |before| < 1 then At(t.withdrawals, n) else WithdrawalsIn(before + [stmt])
  {
    WithdrawalRowsStep(so, stmt, height, n);
    WithdrawalsInAppend(before, [stmt]);
    assert [stmt][..0] == [];
  }

  lemma ProgramStmt(program: seq<Stmt>, height: nat, k: nat)
    requires IsBlockProgram(program, height) && k < |program|
    ensures WritesAtHeight(program[k], height)
    ensures program[k].DeleteDeposits? <==> k == 0
    ensures program[k].DeleteWithdrawals? <==> k == 1
  {
  }

  lemma OneMoreStmt(t: Tables, program: seq<Stmt>, k: nat)
    requires k < |program|
    ensures program[..k + 1] == program[..k] + [program[k]]
    ensures ExecAll(t, program[..k + 1]) == Exec(ExecAll(t, program[..k]), program[k])
  {
    assert program[..k + 1][..k] == program[..k];
  }

  /** Executed on any tables, a block's statements leave at its height exactly the rows they insert. */
  lemma {:induction false} ExecutedDeposits(t: Tables, program: seq<Stmt>, height: nat, k: nat, n: nat)
    requires IsBlockProgram(program, height) && k <= |program|
    ensures At(ExecAll(t, program[..k]).deposits, n)
            == if n != height || k < 1 then At(t.deposits, n) else DepositsIn(program[..k])
  {
    if k > 0 {
      ExecutedDeposits(t, program, height, k - 1, n);
      ProgramStmt(program, height, k - 1);
      OneMoreStmt(t, program, k - 1);
      DepositStep(t, ExecAll(t, program[..k - 1]), program[..k - 1], program[k - 1], height, n);
    }
  }

  lemma {:induction false} ExecutedWithdrawals(t: Tables, program: seq<Stmt>, height: nat, k: nat, n: nat)
    requires IsBlockProgram(program, height) && k <= |program|
    ensures At(ExecAll(t, program[..k]).withdrawals, n)
            == if n != height || k < 2 then At(t.withdrawals, n) else WithdrawalsIn(program[..k])
  {
    if k > 0 {
      ExecutedWithdrawals(t, program, height, k - 1, n);
      ProgramStmt(program, height, k - 1);
      OneMoreStmt(t, program, k - 1);
      NothingWithdrawnYet(program, height, k - 1);
      WithdrawalStep(t, ExecAll(t, program[..k - 1]), program[..k - 1], program[k - 1], height, n);
    }
  }

  lemma {:induction false} NothingWithdrawnYet(program: seq<Stmt>, height: nat, k: nat)
    requires IsBlockProgram(program, height) && k < |program|
    ensures k <= 1 ==> WithdrawalsIn(program[..k]) == [] && !program[k].InsertWithdrawal?
  {
    if k == 1 {
      assert program[..1] == [program[0]] && [program[0]][..0] == [];
    }
  }

  lemma {:induction false} BlockRows(t: Tables, b: Block)
    ensures At(ExecAll(t, Program(b)).deposits, b.height) == DepositRows(b, |b.events|)
    ensures At(ExecAll(t, Program(b)).withdrawals, b.height) == WithdrawalRows(b, |b.events|)
  {
    ProgramIsBlockProgram(b);
    ExecutedDeposits(t, Program(b), b.height, |Program(b)|, b.height);
    ExecutedWithdrawals(t, Program(b), b.height, |Program(b)|, b.height);
    assert Program(b)[..|Program(b)|] == Program(b);
    ProgramInserts(b);
  }

  /** Rows of other heights are left as they were. */
  lemma {:induction false} OtherHeightsStay(t: Tables, b: Block, n: nat)
    requires n != b.height
    ensures At(ExecAll(t, Program(b)).deposits, n) == At(t.deposits, n)
    ensures At(ExecAll(t, Program(b)).withdrawals, n) == At(t.withdrawals, n)
  {
    ProgramIsBlockProgram(b);
    ExecutedDeposits(t, Program(b), b.height, |Program(b)|, n);
    ExecutedWithdrawals(t, Program(b), b.height, |Program(b)|, n);
    assert Program(b)[..|Program(b)|] == Program(b);
  }

  /**
   The deposit rows of an indexed block: one per nomination, at its place among them, with the event's
   operator, nominator and amount and the block's height and time.
   */
  lemma {:induction false} DepositColumns(t: Tables, b: Block, i: nat)
    requires i < |b.events| && b.events[i].OperatorNominated?
    ensures var rows := At(ExecAll(t, Program(b)).deposits, b.height);
            var k, event := NominationsBefore(b.events, i), b.events[i];
            && k < |rows| == NominationsBefore(b.events, |b.events|)
            && rows[k].height == b.height
            && rows[k].data.operatorId == event.operatorId && rows[k].data.address == event.nominator
            && rows[k].data.amount == event.amount && rows[k].data.time == b.time
  {
    BlockRows(t, b);
    DepositRowAt(b, |b.events|, i);
  }

  /**
   Its storage fee: the `k`-th nomination of a pair gets the amount of the pair's `k`-th fee event, wherever
   that is in the block, and 0 when there are not so many.
   */
  lemma {:induction false} DepositFee(t: Tables, b: Block, i: nat)
    requires i < |b.events| && b.events[i].OperatorNominated?
    ensures var rows := At(ExecAll(t, Program(b)).deposits, b.height);
            var id, nominator := b.events[i].operatorId, b.events[i].nominator;
            var k := PairNominationsBefore(b.events, id, nominator, i);
            && NominationsBefore(b.events, i) < |rows|
            && var fee := rows[NominationsBefore(b.events, i)].data.storageFee;
               && (PairFeesBefore(b.events, id, nominator, |b.events|) <= k ==> fee == 0)
               && forall e | 0 <= e < |b.events| && b.events[e].StorageFeeDeposited?
                             && b.events[e].operatorId == id && b.events[e].nominator == nominator
                             && PairFeesBefore(b.events, id, nominator, e) == k :: fee == b.events[e].amount
  {
    var id, nominator := b.events[i].operatorId, b.events[i].nominator;
    BlockRows(t, b);
    DepositRowAt(b, |b.events|, i);
    NominationsAreCounted(b.events, id, nominator, i);
    FeesByEvent(b.events, id, nominator, |b.events|);
    assert b.events[..|b.events|] == b.events;
  }

  /**
   The withdrawal rows: one per withdrawal, at its place among them, with the event's operator and nominator,
   the block's height and time, and the entry's shares, amount and refund, or zeros when none was read.
   */
  lemma {:induction false} WithdrawalColumns(t: Tables, b: Block, i: nat)
    requires i < |b.events| && b.events[i].WithdrewStake?
    ensures var rows := At(ExecAll(t, Program(b)).withdrawals, b.height);
            var k, event := WithdrawalsBefore(b.events, i), b.events[i];
            && k < |rows| == WithdrawalsBefore(b.events, |b.events|)
            && rows[k].height == b.height
            && rows[k].data.operatorId == event.operatorId && rows[k].data.address == event.nominator
            && rows[k].data.time == b.time
            && match event.entry
               case Some(w) =>
                 && rows[k].data.shares == w.shares && rows[k].data.amount == w.amount
                 && rows[k].data.storageFeeRefund == w.storageFeeRefund
               case None =>
                 rows[k].data.shares == 0 && rows[k].data.amount == 0 && rows[k].data.storageFeeRefund == 0
  {
    BlockRows(t, b);
    WithdrawalRowCount(b, |b.events|);
    WithdrawalRowAt(b, |b.events|, i);
  }
}
