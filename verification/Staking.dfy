/**
 What the staking processor does for one block: its statements, in order, as a function of the
 block's events and of the storage reads they lead to.

 A storage read the source tolerates the failure of is an `Option` in its event, so a block here is
 what one attempt has read of it.
 */
module Staking {
  import opened OnChain
  import opened Outcomes
  import opened Schedules
  import opened Tables

  datatype EpochOperator = EpochOperator(
    operatorId: OperatorId, sharePrice: Option<nat>, operator: Option<FullOperator>)

  datatype Event =
    | OperatorRegistered(operatorId: OperatorId, operator: Option<FullOperator>, owner: Option<Address>)
    | OperatorDeregistered(operatorId: OperatorId)
    | OperatorSlashed(operatorId: OperatorId)
    | OperatorDeactivated(operatorId: OperatorId)
    | OperatorReactivated(operatorId: OperatorId)
    | StorageFeeDeposited(operatorId: OperatorId, nominator: Address, amount: nat)
    | OperatorNominated(operatorId: OperatorId, nominator: Address, amount: nat)
    | WithdrewStake(operatorId: OperatorId, nominator: Address, entry: Option<NominatorWithdrawal>)
    | NominatorUnlocked(operatorId: OperatorId, nominator: Address)
    | NominatedStakedUnlocked(operatorId: OperatorId, nominator: Address, hasDeposit: Option<bool>)
    | DomainEpochCompleted(domainId: nat, epochIndex: nat, operators: seq<EpochOperator>)
    | Other

  datatype Block = Block(height: nat, time: nat, events: seq<Event>)

  // Storage fees

  /** The fees deposited for a nominator with an operator, in event order. */
  function FeesFor(events: seq<Event>, key: NominatorKey): seq<nat> {
    if events == [] then []
    else
      var init, last := FeesFor(events[..|events| - 1], key), events[|events| - 1];
      if last.StorageFeeDeposited? && NominatorKey(last.operatorId, last.nominator) == key then init + [last.amount]
      else init
  }

  predicate Nominates(event: Event, key: NominatorKey) {
    event.OperatorNominated? && NominatorKey(event.operatorId, event.nominator) == key
  }

  function NominationCount(events: seq<Event>, key: NominatorKey): nat {
    if events == [] then 0
    else NominationCount(events[..|events| - 1], key) + if Nominates(events[|events| - 1], key) then 1 else 0
  }

  /** The fee of the `i`-th nomination of a key: that key's `i`-th fee, or 0 if there is none. */
  function FeeOf(events: seq<Event>, key: NominatorKey, i: nat): nat {
    var fees := FeesFor(events, key);
    if i < |fees| then fees[i] else 0
  }

  // The block's statements

  /** The source's loops over the events, in their order. */
  datatype Loop =
    Registrations | Deregistrations | Slashings | Deactivations | Reactivations | Nominations | Withdrawals
    | Unlocks | StakedUnlocks | Epochs

  function Nominator(height: nat, operatorId: OperatorId, address: Address, status: NominatorStatus): seq<Stmt> {
    [UpsertNominator(NominatorKey(operatorId, address), status, height), RecountNominators(operatorId)]
  }

  function WithdrawalOf(entry: Option<NominatorWithdrawal>): NominatorWithdrawal {
    match entry
    case Some(withdrawal) => withdrawal
    case None => NominatorWithdrawal(0, 0, 0)
  }

  function PriceKey(event: Event, operator: EpochOperator): SharePriceKey
    requires event.DomainEpochCompleted?
  {
    SharePriceKey(operator.operatorId, event.domainId, event.epochIndex)
  }

  function PriceRow(b: Block, price: nat, operator: FullOperator): SharePrice {
    SharePrice(price, operator.currentTotalStake, operator.currentTotalShares, b.height, b.time)
  }

  /** The statements for the first `n` operators of a completed epoch. */
  function EpochStmts(b: Block, event: Event, n: nat): seq<Stmt>
    requires event.DomainEpochCompleted? && n <= |event.operators|
  {
    if n == 0 then []
    else
      var operator := event.operators[n - 1];
      EpochStmts(b, event, n - 1) +
      if operator.sharePrice.None? || operator.operator.None? then []
      else [UpsertSharePrice(
              PriceKey(event, operator), PriceRow(b, operator.sharePrice.value, operator.operator.value)),
            UpdateOperatorStats(operator.operatorId, operator.operator.value.Stats())]
  }

  /** The deposit row of the nomination event at index `i`. */
  function DepositRow(b: Block, i: nat): Row<Deposit>
    requires i < |b.events| && b.events[i].OperatorNominated?
  {
    var event := b.events[i];
    var key := NominatorKey(event.operatorId, event.nominator);
    Row(b.height, Deposit(event.operatorId, event.nominator, event.amount,
                          FeeOf(b.events, key, NominationCount(b.events[..i], key)), b.time))
  }

  function WithdrawalRow(b: Block, i: nat): Row<Withdrawal>
    requires i < |b.events| && b.events[i].WithdrewStake?
  {
    var event := b.events[i];
    var w := WithdrawalOf(event.entry);
    Row(b.height, Withdrawal(event.operatorId, event.nominator, w.shares, w.amount, w.storageFeeRefund, b.time))
  }

  /** The statements one loop executes for the event at index `i`. */
  function StmtsOf(b: Block, loop: Loop, i: nat): seq<Stmt>
    requires i < |b.events|
  {
    var event := b.events[i];
    match (loop, event)
    case (Registrations, OperatorRegistered(id, operator, owner)) =>
      if operator.None? || owner.None? then []
      else [UpsertOperator(id, operator.value.Identity(owner.value), operator.value.Stats())]
           + Nominator(b.height, id, owner.value, Active)
    case (Deregistrations, OperatorDeregistered(id)) => [UpdateOperatorStatus(id, Deregistered)]
    case (Slashings, OperatorSlashed(id)) => [UpdateOperatorStatus(id, Slashed)]
    case (Deactivations, OperatorDeactivated(id)) => [UpdateOperatorStatus(id, Deactivated)]
    case (Reactivations, OperatorReactivated(id)) => [UpdateOperatorStatus(id, Registered)]
    case (Nominations, OperatorNominated(id, nominator, _)) =>
      Nominator(b.height, id, nominator, Active) + [InsertDeposit(DepositRow(b, i))]
    case (Withdrawals, WithdrewStake(_, _, _)) => [InsertWithdrawal(WithdrawalRow(b, i))]
    case (Unlocks, NominatorUnlocked(id, nominator)) => Nominator(b.height, id, nominator, Withdrawn)
    case (StakedUnlocks, NominatedStakedUnlocked(id, nominator, hasDeposit)) =>
      Nominator(b.height, id, nominator, if hasDeposit == Some(false) then Withdrawn else Active)
    case (Epochs, DomainEpochCompleted(_, _, operators)) => EpochStmts(b, event, |operators|)
    case _ => []
  }

  /** The statements one loop executes for the first `n` events. */
  function Gather(b: Block, loop: Loop, n: nat): seq<Stmt>
    requires n <= |b.events|
  {
    if n == 0 then [] else Gather(b, loop, n - 1) + StmtsOf(b, loop, n - 1)
  }

  const LOOPS: seq<Loop> :=
    [Registrations, Deregistrations, Slashings, Deactivations, Reactivations, Nominations, Withdrawals,
     Unlocks, StakedUnlocks, Epochs]

  /** The deletes and the first `k` loops. */
  function ProgramUpTo(b: Block, k: nat): seq<Stmt>
    requires k <= |LOOPS|
  {
    if k == 0 then [DeleteDeposits(b.height), DeleteWithdrawals(b.height)]
    else ProgramUpTo(b, k - 1) + Gather(b, LOOPS[k - 1], |b.events|)
  }

  /** All statements of the block. */
  function Program(b: Block): seq<Stmt> {
    ProgramUpTo(b, |LOOPS|)
  }

  // The program is a block program

  /** Statements that can follow the deletes: no delete, own height, every count redone. */
  ghost predicate IsTail(stmts: seq<Stmt>, height: nat) {
    && (forall i | 0 <= i < |stmts| :: !stmts[i].DeleteDeposits? && !stmts[i].DeleteWithdrawals?)
    && (forall i | 0 <= i < |stmts| :: WritesAtHeight(stmts[i], height))
    && Recounted(stmts)
  }

  lemma {:induction false} RecountedAppend(a: seq<Stmt>, b: seq<Stmt>)
    requires Recounted(a) && Recounted(b)
    ensures Recounted(a + b)
  {
    var c := a + b;
    forall i, id | 0 <= i < |c| && Unsettles(c[i], id)
      ensures RecountsAfter(c, i + 1, id)
    {
      if i < |a| {
        assert RecountsAfter(a, i + 1, id);
        var j :| i + 1 <= j < |a| && a[j] == RecountNominators(id);
        assert c[j] == RecountNominators(id);
      } else {
        assert Unsettles(b[i - |a|], id) && RecountsAfter(b, i - |a| + 1, id);
        var j :| i - |a| + 1 <= j < |b| && b[j] == RecountNominators(id);
        assert c[|a| + j] == RecountNominators(id);
      }
    }
  }

  lemma {:induction false} TailAppend(a: seq<Stmt>, b: seq<Stmt>, height: nat)
    requires IsTail(a, height) && IsTail(b, height)
    ensures IsTail(a + b, height)
  {
    RecountedAppend(a, b);
  }

  lemma {:induction false} NominatorIsTail(height: nat, id: OperatorId, address: Address, status: NominatorStatus)
    ensures IsTail(Nominator(height, id, address, status), height)
  {
    var stmts := Nominator(height, id, address, status);
    assert stmts[1] == RecountNominators(id);
  }

  lemma {:induction false} RegistrationIsTail(
    height: nat, id: OperatorId, identity: OperatorIdentity, stats: OperatorStats, owner: Address)
    ensures IsTail([UpsertOperator(id, identity, stats)] + Nominator(height, id, owner, Active), height)
  {
    var stmts := [UpsertOperator(id, identity, stats)] + Nominator(height, id, owner, Active);
    assert stmts[2] == RecountNominators(id);
  }

  lemma {:induction false} EpochIsTail(b: Block, event: Event, n: nat)
    requires event.DomainEpochCompleted? && n <= |event.operators|
    ensures IsTail(EpochStmts(b, event, n), b.height)
  {
    if n > 0 {
      EpochIsTail(b, event, n - 1);
      var operator := event.operators[n - 1];
      if operator.sharePrice.Some? && operator.operator.Some? {
        var price := PriceRow(b, operator.sharePrice.value, operator.operator.value);
        var more := [UpsertSharePrice(PriceKey(event, operator), price),
                     UpdateOperatorStats(operator.operatorId, operator.operator.value.Stats())];
        TailAppend(EpochStmts(b, event, n - 1), more, b.height);
      } else {
        assert EpochStmts(b, event, n) == EpochStmts(b, event, n - 1);
      }
    }
  }

  lemma {:induction false} StmtsAreTail(b: Block, loop: Loop, i: nat)
    requires i < |b.events|
    ensures IsTail(StmtsOf(b, loop, i), b.height)
  {
    var event := b.events[i];
    match (loop, event) {
      case (Registrations, OperatorRegistered(id, operator, owner)) =>
        if operator.Some? && owner.Some? {
          RegistrationIsTail(b.height, id, operator.value.Identity(owner.value), operator.value.Stats(), owner.value);
        }
      case (Nominations, OperatorNominated(id, nominator, _)) =>
        NominatorIsTail(b.height, id, nominator, Active);
        TailAppend(Nominator(b.height, id, nominator, Active), [InsertDeposit(DepositRow(b, i))], b.height);
      case (Unlocks, NominatorUnlocked(id, nominator)) => NominatorIsTail(b.height, id, nominator, Withdrawn);
      case (StakedUnlocks, NominatedStakedUnlocked(id, nominator, hasDeposit)) =>
        NominatorIsTail(b.height, id, nominator, if hasDeposit == Some(false) then Withdrawn else Active);
      case (Epochs, DomainEpochCompleted(_, _, operators)) => EpochIsTail(b, event, |operators|);
      case _ =>
    }
  }

  lemma {:induction false} GatherIsTail(b: Block, loop: Loop, n: nat)
    requires n <= |b.events|
    ensures IsTail(Gather(b, loop, n), b.height)
  {
    if n > 0 {
      GatherIsTail(b, loop, n - 1);
      StmtsAreTail(b, loop, n - 1);
      TailAppend(Gather(b, loop, n - 1), StmtsOf(b, loop, n - 1), b.height);
    }
  }

  /** The two deletes, then a tail. */
  ghost predicate DeletesThenTail(stmts: seq<Stmt>, height: nat) {
    && |stmts| >= 2
    && stmts[0] == DeleteDeposits(height) && stmts[1] == DeleteWithdrawals(height)
    && IsTail(stmts[2..], height)
  }

  lemma {:induction false} ExtendTail(stmts: seq<Stmt>, more: seq<Stmt>, height: nat)
    requires DeletesThenTail(stmts, height) && IsTail(more, height)
    ensures DeletesThenTail(stmts + more, height)
  {
    TailAppend(stmts[2..], more, height);
    assert (stmts + more)[2..] == stmts[2..] + more;
  }

  lemma {:induction false} ProgramSplits(b: Block, k: nat)
    requires k <= |LOOPS|
    ensures DeletesThenTail(ProgramUpTo(b, k), b.height)
  {
    if k > 0 {
      ProgramSplits(b, k - 1);
      GatherIsTail(b, LOOPS[k - 1], |b.events|);
      ExtendTail(ProgramUpTo(b, k - 1), Gather(b, LOOPS[k - 1], |b.events|), b.height);
    }
  }

  /** Every block's statements have the shape that the table theorems rely on. */
  lemma {:induction false} ProgramIsBlockProgram(b: Block)
    ensures IsBlockProgram(Program(b), b.height)
  {
    ProgramSplits(b, |LOOPS|);
    var program := Program(b);
    var head, tail := [program[0], program[1]], program[2..];
    assert program == head + tail;
    RecountedAppend(head, tail);
    forall i | 2 <= i < |program|
      ensures !program[i].DeleteDeposits? && !program[i].DeleteWithdrawals? && WritesAtHeight(program[i], b.height)
    {
      assert program[i] == tail[i - 2];
    }
  }

  // What the block's rows are

  /** One deposit row per nomination event among the first `n`, in event order. */
  function DepositRows(b: Block, n: nat): seq<Row<Deposit>>
    requires n <= |b.events|
  {
    if n == 0 then []
    else DepositRows(b, n - 1) + if b.events[n - 1].OperatorNominated? then [DepositRow(b, n - 1)] else []
  }

  /** One withdrawal row per withdrawal event among the first `n`, in event order. */
  function WithdrawalRows(b: Block, n: nat): seq<Row<Withdrawal>>
    requires n <= |b.events|
  {
    if n == 0 then []
    else WithdrawalRows(b, n - 1) + if b.events[n - 1].WithdrewStake? then [WithdrawalRow(b, n - 1)] else []
  }

  ghost predicate NoDeposits(stmts: seq<Stmt>) {
    forall i | 0 <= i < |stmts| :: !stmts[i].InsertDeposit?
  }

  ghost predicate NoWithdrawals(stmts: seq<Stmt>) {
    forall i | 0 <= i < |stmts| :: !stmts[i].InsertWithdrawal?
  }

  lemma {:induction false} NoDepositsIn(stmts: seq<Stmt>)
    requires NoDeposits(stmts)
    ensures DepositsIn(stmts) == []
  {
    if stmts != [] {
      NoDepositsIn(stmts[..|stmts| - 1]);
    }
  }

  lemma {:induction false} NoWithdrawalsIn(stmts: seq<Stmt>)
    requires NoWithdrawals(stmts)
    ensures WithdrawalsIn(stmts) == []
  {
    if stmts != [] {
      NoWithdrawalsIn(stmts[..|stmts| - 1]);
    }
  }

  lemma {:induction false} EpochInsertsNothing(b: Block, event: Event, n: nat)
    requires event.DomainEpochCompleted? && n <= |event.operators|
    ensures NoDeposits(EpochStmts(b, event, n)) && NoWithdrawals(EpochStmts(b, event, n))
  {
    if n > 0 {
      EpochInsertsNothing(b, event, n - 1);
    }
  }

  lemma {:induction false} OtherStmts(b: Block, loop: Loop, i: nat)
    requires i < |b.events|
    ensures !loop.Nominations? ==> NoDeposits(StmtsOf(b, loop, i))
    ensures !loop.Withdrawals? ==> NoWithdrawals(StmtsOf(b, loop, i))
  {
    if loop.Epochs? && b.events[i].DomainEpochCompleted? {
      EpochInsertsNothing(b, b.events[i], |b.events[i].operators|);
    }
  }

  lemma NoneInBoth(a: seq<Stmt>, b: seq<Stmt>)
    ensures NoDeposits(a) && NoDeposits(b) ==> NoDeposits(a + b)
    ensures NoWithdrawals(a) && NoWithdrawals(b) ==> NoWithdrawals(a + b)
  {
  }

  /** The loops other than the nominations insert no deposit, those other than the withdrawals no withdrawal. */
  lemma {:induction false} OtherLoops(b: Block, loop: Loop, n: nat)
    requires n <= |b.events|
    ensures !loop.Nominations? ==> NoDeposits(Gather(b, loop, n))
    ensures !loop.Withdrawals? ==> NoWithdrawals(Gather(b, loop, n))
  {
    if n > 0 {
      OtherLoops(b, loop, n - 1);
      OtherStmts(b, loop, n - 1);
      NoneInBoth(Gather(b, loop, n - 1), StmtsOf(b, loop, n - 1));
    }
  }

  lemma {:induction false} NominationStmts(b: Block, i: nat)
    requires i < |b.events|
    ensures DepositsIn(StmtsOf(b, Nominations, i))
              == if b.events[i].OperatorNominated? then [DepositRow(b, i)] else []
  {
    var event := b.events[i];
    if event.OperatorNominated? {
      var nominator := Nominator(b.height, event.operatorId, event.nominator, Active);
      NoDepositsIn(nominator);
      DepositsInAppend(nominator, [InsertDeposit(DepositRow(b, i))]);
    }
  }

  lemma {:induction false} NominationDeposits(b: Block, n: nat)
    requires n <= |b.events|
    ensures DepositsIn(Gather(b, Nominations, n)) == DepositRows(b, n)
  {
    if n > 0 {
      var before, more := Gather(b, Nominations, n - 1), StmtsOf(b, Nominations, n - 1);
      NominationDeposits(b, n - 1);
      NominationStmts(b, n - 1);
      if b.events[n - 1].OperatorNominated? {
        AddDeposits(before, more, DepositRows(b, n - 1), [DepositRow(b, n - 1)]);
      } else {
        AddDeposits(before, more, DepositRows(b, n - 1), []);
      }
    }
  }

  lemma AddDeposits(a: seq<Stmt>, b: seq<Stmt>, x: seq<Row<Deposit>>, y: seq<Row<Deposit>>)
    requires DepositsIn(a) == x && DepositsIn(b) == y
    ensures DepositsIn(a + b) == x + y
  {
    DepositsInAppend(a, b);
  }

  lemma {:induction false} LoopWithdrawals(b: Block, n: nat)
    requires n <= |b.events|
    ensures WithdrawalsIn(Gather(b, Withdrawals, n)) == WithdrawalRows(b, n)
  {
    if n > 0 {
      var before, more := Gather(b, Withdrawals, n - 1), StmtsOf(b, Withdrawals, n - 1);
      LoopWithdrawals(b, n - 1);
      WithdrawalStmts(b, n - 1);
      if b.events[n - 1].WithdrewStake? {
        AddWithdrawals(before, more, WithdrawalRows(b, n - 1), [WithdrawalRow(b, n - 1)]);
      } else {
        AddWithdrawals(before, more, WithdrawalRows(b, n - 1), []);
      }
    }
  }

  lemma {:induction false} WithdrawalStmts(b: Block, i: nat)
    requires i < |b.events|
    ensures WithdrawalsIn(StmtsOf(b, Withdrawals, i))
              == if b.events[i].WithdrewStake? then [WithdrawalRow(b, i)] else []
  {
  }

  lemma AddWithdrawals(a: seq<Stmt>, b: seq<Stmt>, x: seq<Row<Withdrawal>>, y: seq<Row<Withdrawal>>)
    requires WithdrawalsIn(a) == x && WithdrawalsIn(b) == y
    ensures WithdrawalsIn(a + b) == x + y
  {
    WithdrawalsInAppend(a, b);
  }

  lemma LoopOrder(k: nat)
    requires k < |LOOPS|
    ensures LOOPS[k].Nominations? <==> k == 5
    ensures LOOPS[k].Withdrawals? <==> k == 6
  {
  }

  lemma OneListEmpty<T>(a: seq<T>, b: seq<T>)
    ensures a == [] ==> a + b == b
    ensures b == [] ==> a + b == a
  {
  }

  lemma {:induction false} LoopInsertsDeposits(b: Block, k: nat)
    requires k < |LOOPS|
    ensures DepositsIn(Gather(b, LOOPS[k], |b.events|)) == if k == 5 then DepositRows(b, |b.events|) else []
  {
    LoopOrder(k);
    if k == 5 {
      NominationDeposits(b, |b.events|);
    } else {
      OtherLoops(b, LOOPS[k], |b.events|);
      NoDepositsIn(Gather(b, LOOPS[k], |b.events|));
    }
  }

  lemma {:induction false} DepositsUpTo(b: Block, k: nat)
    requires k <= |LOOPS|
    ensures DepositsIn(ProgramUpTo(b, k)) == if k > 5 then DepositRows(b, |b.events|) else []
  {
    if k == 0 {
      NoDepositsIn(ProgramUpTo(b, 0));
    } else {
      DepositsUpTo(b, k - 1);
      LoopInsertsDeposits(b, k - 1);
      OneListEmpty(if k > 6 then DepositRows(b, |b.events|) else [], if k == 6 then DepositRows(b, |b.events|) else []);
      AddDeposits(ProgramUpTo(b, k - 1), Gather(b, LOOPS[k - 1], |b.events|),
                  if k > 6 then DepositRows(b, |b.events|) else [], if k == 6 then DepositRows(b, |b.events|) else []);
    }
  }

  lemma {:induction false} LoopInsertsWithdrawals(b: Block, k: nat)
    requires k < |LOOPS|
    ensures WithdrawalsIn(Gather(b, LOOPS[k], |b.events|)) == if k == 6 then WithdrawalRows(b, |b.events|) else []
  {
    LoopOrder(k);
    if k == 6 {
      LoopWithdrawals(b, |b.events|);
    } else {
      OtherLoops(b, LOOPS[k], |b.events|);
      NoWithdrawalsIn(Gather(b, LOOPS[k], |b.events|));
    }
  }

  lemma {:induction false} WithdrawalsUpTo(b: Block, k: nat)
    requires k <= |LOOPS|
    ensures WithdrawalsIn(ProgramUpTo(b, k)) == if k > 6 then WithdrawalRows(b, |b.events|) else []
  {
    if k == 0 {
      NoWithdrawalsIn(ProgramUpTo(b, 0));
    } else {
      WithdrawalsUpTo(b, k - 1);
      LoopInsertsWithdrawals(b, k - 1);
      OneListEmpty(if k > 7 then WithdrawalRows(b, |b.events|) else [],
                   if k == 7 then WithdrawalRows(b, |b.events|) else []);
      AddWithdrawals(
        ProgramUpTo(b, k - 1), Gather(b, LOOPS[k - 1], |b.events|),
        if k > 7 then WithdrawalRows(b, |b.events|) else [], if k == 7 then WithdrawalRows(b, |b.events|) else []);
    }
  }

  /** A block inserts one deposit per nomination and one withdrawal per withdrawal event, in order. */
  lemma {:induction false} ProgramInserts(b: Block)
    ensures DepositsIn(Program(b)) == DepositRows(b, |b.events|)
    ensures WithdrawalsIn(Program(b)) == WithdrawalRows(b, |b.events|)
  {
    DepositsUpTo(b, |LOOPS|);
    WithdrawalsUpTo(b, |LOOPS|);
  }

  // Fee conservation

  function Sum(amounts: seq<nat>): nat {
    if amounts == [] then 0 else Sum(amounts[..|amounts| - 1]) + amounts[|amounts| - 1]
  }

  /** The storage fees in a key's deposit rows, in row order. */
  function FeesIn(rows: seq<Row<Deposit>>, key: NominatorKey): seq<nat> {
    if rows == [] then []
    else
      var last := rows[|rows| - 1].data;
      FeesIn(rows[..|rows| - 1], key)
      + if NominatorKey(last.operatorId, last.address) == key then [last.storageFee] else []
  }

  function Zeros(count: nat): (zeros: seq<nat>)
    ensures |zeros| == count && forall i :: 0 <= i < count ==> zeros[i] == 0
  {
    seq(count, _ => 0)
  }

  function Least(a: nat, b: nat): nat {
    if a < b then a else b
  }

  /** The fees a key's first `count` nominations get: its first fees, then zeros. */
  function FirstFees(events: seq<Event>, key: NominatorKey, count: nat): seq<nat> {
    var fees := FeesFor(events, key);
    var used := Least(count, |fees|);
    fees[..used] + Zeros(count - used)
  }

  lemma FirstFeesStep(events: seq<Event>, key: NominatorKey, count: nat)
    ensures FirstFees(events, key, count + 1) == FirstFees(events, key, count) + [FeeOf(events, key, count)]
  {
  }

  lemma FeesInOneMore(rows: seq<Row<Deposit>>, row: Row<Deposit>, key: NominatorKey)
    ensures FeesIn(rows + [row], key)
            == FeesIn(rows, key)
               + if NominatorKey(row.data.operatorId, row.data.address) == key then [row.data.storageFee] else []
  {
    assert (rows + [row])[..|rows|] == rows;
  }

  /**
   The fees written for a key, row by row: its storage fees in their order, each once, and zeros for
   the nominations that are left without one.
   */
  lemma {:induction false} WrittenFeesAreFirst(b: Block, key: NominatorKey, n: nat)
    requires n <= |b.events|
    ensures FeesIn(DepositRows(b, n), key) == FirstFees(b.events, key, NominationCount(b.events[..n], key))
  {
    if n > 0 {
      WrittenFeesAreFirst(b, key, n - 1);
      assert b.events[..n][..n - 1] == b.events[..n - 1];
      FirstFeesStep(b.events, key, NominationCount(b.events[..n - 1], key));
      if b.events[n - 1].OperatorNominated? {
        FeesInOneMore(DepositRows(b, n - 1), DepositRow(b, n - 1), key);
      } else {
        assert DepositRows(b, n) == DepositRows(b, n - 1);
      }
    }
  }

  lemma {:induction false} SumSplit(amounts: seq<nat>, k: nat)
    requires k <= |amounts|
    ensures Sum(amounts) == Sum(amounts[..k]) + Sum(amounts[k..])
  {
    if k == |amounts| {
      assert amounts[..k] == amounts;
    } else {
      SumSplit(amounts[..|amounts| - 1], k);
      assert amounts[..|amounts| - 1][..k] == amounts[..k];
      assert amounts[k..][..|amounts| - 1 - k] == amounts[..|amounts| - 1][k..];
    }
  }

  lemma {:induction false} SumOfZeros(count: nat)
    ensures Sum(Zeros(count)) == 0
  {
    if count > 0 {
      SumOfZeros(count - 1);
      assert Zeros(count)[..count - 1] == Zeros(count - 1);
    }
  }

  /** Per nominator and operator, the fees written and the fees left over add up to those deposited. */
  lemma {:induction false} FeesAreConserved(b: Block, key: NominatorKey)
    ensures var fees := FeesFor(b.events, key);
            var used := Least(NominationCount(b.events, key), |fees|);
            Sum(FeesIn(DepositRows(b, |b.events|), key)) + Sum(fees[used..]) == Sum(fees)
  {
    var fees, count := FeesFor(b.events, key), NominationCount(b.events, key);
    var used := Least(count, |fees|);
    var written := FirstFees(b.events, key, count);
    WrittenFeesAreFirst(b, key, |b.events|);
    assert b.events[..|b.events|] == b.events;
    SumSplit(fees, used);
    SumSplit(written, used);
    assert written[..used] == fees[..used] && written[used..] == Zeros(count - used);
    SumOfZeros(count - used);
  }
}
