/** The imperative indexing of one block: the source's loops, each proved against the block's program. */
module StakingIndexer {
  import opened Database
  import opened OnChain
  import opened Staking
  import opened Tables

  lemma ExecTwo(t: Tables, a: Stmt, b: Stmt)
    ensures ExecAll(t, [a, b]) == Exec(Exec(t, a), b)
  {
    assert [a, b][..1] == [a];
    ExecOne(t, a);
  }

  /** A registered operator, when both storage reads succeeded: its row, and its owner as a nominator. */
  method IndexRegistration(b: Block, operatorId: OperatorId, op: FullOperator, owner: Address, db: Db)
    modifies db`nominators, db`operators
    ensures db.Staking() == ExecAll(old(db.Staking()),
                                    [UpsertOperator(operatorId, op.Identity(owner), op.Stats())]
                                    + Nominator(b.height, operatorId, owner, Active))
  {
    ghost var t := db.Staking();
    ghost var first := UpsertOperator(operatorId, op.Identity(owner), op.Stats());
    db.UpsertOperator(operatorId, op.Identity(owner), op.Stats());
    IndexNominator(b, operatorId, owner, Active, db);
    ExecAllAppend(t, [first], Nominator(b.height, operatorId, owner, Active));
    ExecOne(t, first);
  }

  method IndexNominator(b: Block, operatorId: OperatorId, address: Address, status: NominatorStatus, db: Db)
    modifies db`nominators, db`operators
    ensures db.Staking() == ExecAll(old(db.Staking()), Nominator(b.height, operatorId, address, status))
  {
    ExecTwo(db.Staking(), UpsertNominator(NominatorKey(operatorId, address), status, b.height),
            RecountNominators(operatorId));
    db.UpsertNominator(operatorId, address, status, b.height);
  }

  method IndexStatus(operatorId: OperatorId, status: OperatorStatus, db: Db)
    modifies db`operators
    ensures db.Staking() == ExecAll(old(db.Staking()), [UpdateOperatorStatus(operatorId, status)])
  {
    ExecOne(db.Staking(), UpdateOperatorStatus(operatorId, status));
    db.UpdateOperatorStatus(operatorId, status);
  }

  /** A withdrawal; without a readable storage entry its amounts are zero. */
  method IndexWithdrawal(b: Block, i: nat, db: Db)
    requires i < |b.events| && b.events[i].WithdrewStake?
    modifies db`withdrawals
    ensures db.Staking() == ExecAll(old(db.Staking()), [InsertWithdrawal(WithdrawalRow(b, i))])
  {
    var e := b.events[i];
    var w := NominatorWithdrawal(0, 0, 0);
    if e.entry.Some? {
      w := e.entry.value;
    }
    ExecOne(db.Staking(), InsertWithdrawal(WithdrawalRow(b, i)));
    db.InsertWithdrawal(
      Row(b.height, Withdrawal(e.operatorId, e.nominator, w.shares, w.amount, w.storageFeeRefund, b.time)));
  }

  /** `index_epoch_share_prices` for one completed epoch. */
  method IndexEpochSharePrices(b: Block, event: Event, db: Db)
    requires event.DomainEpochCompleted?
    modifies db`sharePrices, db`operators
    ensures db.Staking() == ExecAll(old(db.Staking()), EpochStmts(b, event, |event.operators|))
  {
    ghost var t := db.Staking();
    for n := 0 to |event.operators|
      invariant db.Staking() == ExecAll(t, EpochStmts(b, event, n))
    {
      var operator := event.operators[n];
      if operator.sharePrice.Some? && operator.operator.Some? {
        var op := operator.operator.value;
        ghost var before := db.Staking();
        var price :=
          SharePrice(operator.sharePrice.value, op.currentTotalStake, op.currentTotalShares, b.height, b.time);
        db.UpsertEpochSharePrice(SharePriceKey(operator.operatorId, event.domainId, event.epochIndex), price);
        db.UpdateOperatorStats(operator.operatorId, op.Stats());
        ghost var stmts := [UpsertSharePrice(PriceKey(event, operator), price),
                            UpdateOperatorStats(operator.operatorId, op.Stats())];
        ExecTwo(before, stmts[0], stmts[1]);
        ExecAllAppend(t, EpochStmts(b, event, n), stmts);
      } else {
        assert EpochStmts(b, event, n + 1) == EpochStmts(b, event, n);
      }
    }
  }

  /** The body of one of the source's loops, for the event at index `i`. */
  method IndexEvent(b: Block, loop: Loop, i: nat, db: Db)
    requires i < |b.events| && !loop.Nominations?
    modifies db`withdrawals, db`nominators, db`operators, db`sharePrices
    ensures db.Staking() == ExecAll(old(db.Staking()), StmtsOf(b, loop, i))
  {
    match (loop, b.events[i])
    case (Registrations, OperatorRegistered(id, operator, owner)) =>
      if operator.Some? && owner.Some? {
        IndexRegistration(b, id, operator.value, owner.value, db);
      }
    case (Deregistrations, OperatorDeregistered(id)) => IndexStatus(id, Deregistered, db);
    case (Slashings, OperatorSlashed(id)) => IndexStatus(id, Slashed, db);
    case (Deactivations, OperatorDeactivated(id)) => IndexStatus(id, Deactivated, db);
    case (Reactivations, OperatorReactivated(id)) => IndexStatus(id, Registered, db);
    case (Withdrawals, WithdrewStake(_, _, _)) => IndexWithdrawal(b, i, db);
    case (Unlocks, NominatorUnlocked(id, nominator)) => IndexNominator(b, id, nominator, Withdrawn, db);
    case (StakedUnlocks, NominatedStakedUnlocked(id, nominator, hasDeposit)) =>
      // A failed read of the deposit entry counts as still deposited.
      var deposited := hasDeposit.None? || hasDeposit.value;
      IndexNominator(b, id, nominator, if deposited then Active else Withdrawn, db);
    case (Epochs, DomainEpochCompleted(_, _, _)) => IndexEpochSharePrices(b, b.events[i], db);
    case _ =>
  }

  lemma GatherStep(t: Tables, b: Block, loop: Loop, i: nat)
    requires i < |b.events|
    ensures ExecAll(t, Gather(b, loop, i + 1)) == ExecAll(ExecAll(t, Gather(b, loop, i)), StmtsOf(b, loop, i))
  {
    ExecAllAppend(t, Gather(b, loop, i), StmtsOf(b, loop, i));
  }

  /** The tables once a loop has executed what it gathers from the first `n` events. */
  ghost predicate HasRun(t: Tables, b: Block, loop: Loop, n: nat, now: Tables) {
    n <= |b.events| && now == ExecAll(t, Gather(b, loop, n))
  }

  method IndexNextEvent(b: Block, loop: Loop, i: nat, db: Db, ghost t: Tables)
    requires i < |b.events| && !loop.Nominations? && HasRun(t, b, loop, i, db.Staking())
    modifies db`withdrawals, db`nominators, db`operators, db`sharePrices
    ensures HasRun(t, b, loop, i + 1, db.Staking())
  {
    GatherStep(t, b, loop, i);
    IndexEvent(b, loop, i, db);
  }

  lemma NoneRun(t: Tables, b: Block, loop: Loop)
    ensures HasRun(t, b, loop, 0, t)
  {
  }

  /** One of the source's loops over the block's events. */
  method RunLoop(b: Block, loop: Loop, db: Db)
    requires !loop.Nominations?
    modifies db`withdrawals, db`nominators, db`operators, db`sharePrices
    ensures HasRun(old(db.Staking()), b, loop, |b.events|, db.Staking())
  {
    hide HasRun;
    ghost var t := db.Staking();
    NoneRun(t, b, loop);
    for i := 0 to |b.events|
      invariant HasRun(t, b, loop, i, db.Staking())
    {
      IndexNextEvent(b, loop, i, db, t);
    }
  }

  function FeeQueue(fees: map<NominatorKey, seq<nat>>, key: NominatorKey): seq<nat> {
    if key in fees then fees[key] else []
  }

  /** Collects the block's storage fees into one queue per operator and nominator. */
  method CollectStorageFees(events: seq<Event>) returns (fees: map<NominatorKey, seq<nat>>)
    ensures forall key :: FeeQueue(fees, key) == FeesFor(events, key)
  {
    fees := map[];
    for i := 0 to |events|
      invariant forall key :: FeeQueue(fees, key) == FeesFor(events[..i], key)
    {
      assert events[..i + 1][..i] == events[..i];
      var e := events[i];
      if e.StorageFeeDeposited? {
        var key := NominatorKey(e.operatorId, e.nominator);
        fees := fees[key := FeeQueue(fees, key) + [e.amount]];
      }
    }
    assert events[..|events|] == events;
  }

  /** What is left of a key's fees after the nominations among the first `n` events. */
  function FeesLeft(events: seq<Event>, key: NominatorKey, n: nat): seq<nat>
    requires n <= |events|
  {
    var fees := FeesFor(events, key);
    fees[Least(NominationCount(events[..n], key), |fees|)..]
  }

  lemma {:induction false} FeesLeftStep(events: seq<Event>, key: NominatorKey, n: nat)
    requires n < |events|
    ensures var left := FeesLeft(events, key, n);
            FeesLeft(events, key, n + 1) == if Nominates(events[n], key) && left != [] then left[1..] else left
    ensures var left := FeesLeft(events, key, n);
            FeeOf(events, key, NominationCount(events[..n], key)) == if left == [] then 0 else left[0]
  {
    assert events[..n + 1][..n] == events[..n];
  }

  /** Each key's queue holds what the nominations among the first `n` events have left of its fees. */
  ghost predicate QueuesLeft(fees: map<NominatorKey, seq<nat>>, events: seq<Event>, n: nat)
    requires n <= |events|
  {
    forall key :: FeeQueue(fees, key) == FeesLeft(events, key, n)
  }

  lemma {:induction false} OtherEventKeepsQueues(fees: map<NominatorKey, seq<nat>>, b: Block, i: nat)
    requires i < |b.events| && !b.events[i].OperatorNominated? && QueuesLeft(fees, b.events, i)
    ensures QueuesLeft(fees, b.events, i + 1)
    ensures StmtsOf(b, Nominations, i) == []
  {
    forall key
      ensures FeeQueue(fees, key) == FeesLeft(b.events, key, i + 1)
    {
      FeesLeftStep(b.events, key, i);
    }
  }

  /** Removes the first fee of the nominated key's queue; an absent or empty queue gives 0. */
  method TakeFee(b: Block, i: nat, storageFees: map<NominatorKey, seq<nat>>)
    returns (fee: nat, left: map<NominatorKey, seq<nat>>)
    requires i < |b.events| && b.events[i].OperatorNominated? && QueuesLeft(storageFees, b.events, i)
    ensures fee == DepositRow(b, i).data.storageFee
    ensures QueuesLeft(left, b.events, i + 1)
  {
    var key := NominatorKey(b.events[i].operatorId, b.events[i].nominator);
    fee, left := 0, storageFees;
    if key in storageFees && storageFees[key] != [] {
      fee := storageFees[key][0];
      left := left[key := storageFees[key][1..]];
    }
    forall k
      ensures FeeQueue(left, k) == FeesLeft(b.events, k, i + 1)
    {
      FeesLeftStep(b.events, k, i);
    }
    FeesLeftStep(b.events, key, i);
  }

  method IndexNomination(b: Block, i: nat, storageFees: map<NominatorKey, seq<nat>>, db: Db)
    returns (left: map<NominatorKey, seq<nat>>)
    requires i < |b.events| && b.events[i].OperatorNominated? && QueuesLeft(storageFees, b.events, i)
    modifies db`nominators, db`operators, db`deposits
    ensures db.Staking() == ExecAll(old(db.Staking()), StmtsOf(b, Nominations, i))
    ensures QueuesLeft(left, b.events, i + 1)
  {
    ghost var t := db.Staking();
    var e := b.events[i];
    IndexNominator(b, e.operatorId, e.nominator, Active, db);
    var storageFee;
    storageFee, left := TakeFee(b, i, storageFees);
    db.InsertDeposit(e.operatorId, e.nominator, e.amount, storageFee, b.height, b.time);
    ghost var nominator := Nominator(b.height, e.operatorId, e.nominator, Active);
    ExecAllAppend(t, nominator, [InsertDeposit(DepositRow(b, i))]);
    ExecOne(ExecAll(t, nominator), InsertDeposit(DepositRow(b, i)));
  }

  /** The nomination loop: upsert the nominator, take the key's next fee, insert the deposit. */
  method RunNominations(b: Block, db: Db)
    modifies db`nominators, db`operators, db`deposits
    ensures db.Staking() == ExecAll(old(db.Staking()), Gather(b, Nominations, |b.events|))
  {
    var storageFees := CollectStorageFees(b.events);
    for i := 0 to |b.events|
      invariant db.Staking() == ExecAll(old(db.Staking()), Gather(b, Nominations, i))
      invariant QueuesLeft(storageFees, b.events, i)
    {
      GatherStep(old(db.Staking()), b, Nominations, i);
      if b.events[i].OperatorNominated? {
        storageFees := IndexNomination(b, i, storageFees, db);
      } else {
        OtherEventKeepsQueues(storageFees, b, i);
      }
    }
  }

  lemma ProgramStep(t: Tables, b: Block, k: nat)
    requires k < |LOOPS|
    ensures ExecAll(t, ProgramUpTo(b, k + 1)) == ExecAll(ExecAll(t, ProgramUpTo(b, k)), Gather(b, LOOPS[k], |b.events|))
  {
    ExecAllAppend(t, ProgramUpTo(b, k), Gather(b, LOOPS[k], |b.events|));
  }

  method DeleteRows(b: Block, db: Db)
    modifies db`deposits, db`withdrawals
    ensures db.Staking() == ExecAll(old(db.Staking()), ProgramUpTo(b, 0))
  {
    ExecTwo(db.Staking(), DeleteDeposits(b.height), DeleteWithdrawals(b.height));
    db.DeleteDepositsForBlock(b.height);
    db.DeleteWithdrawalsForBlock(b.height);
  }

  method RunLoopAt(b: Block, k: nat, db: Db)
    requires k < |LOOPS|
    modifies db`deposits, db`withdrawals, db`nominators, db`operators, db`sharePrices
    ensures db.Staking() == ExecAll(old(db.Staking()), Gather(b, LOOPS[k], |b.events|))
  {
    if LOOPS[k].Nominations? {
      RunNominations(b, db);
    } else {
      RunLoop(b, LOOPS[k], db);
    }
  }

  method RunNextLoop(b: Block, k: nat, db: Db, ghost t: Tables)
    requires k < |LOOPS| && db.Staking() == ExecAll(t, ProgramUpTo(b, k))
    modifies db`deposits, db`withdrawals, db`nominators, db`operators, db`sharePrices
    ensures db.Staking() == ExecAll(t, ProgramUpTo(b, k + 1))
  {
    ProgramStep(t, b, k);
    RunLoopAt(b, k, db);
  }

  /** Indexing a block executes exactly the block's program: the deletes, then each loop in turn. */
  method IndexStakingForBlock(b: Block, db: Db)
    modifies db`deposits, db`withdrawals, db`nominators, db`operators, db`sharePrices
    ensures db.Staking() == ExecAll(old(db.Staking()), Program(b))
  {
    hide ExecAll;
    ghost var t := db.Staking();
    DeleteRows(b, db);
    for k := 0 to |LOOPS|
      invariant db.Staking() == ExecAll(t, ProgramUpTo(b, k))
    {
      RunNextLoop(b, k, db, t);
    }
  }
}
