/**
 Reads that are tolerated to fail, and what they change.

 The chain holds one value for every storage entry; an attempt at a block reads that value or, when
 the call fails, nothing. Deposit rows do not depend on it. What it changes in the nominators table,
 and when, is stated exactly.
 */
module Readings {
  import opened Convergence
  import opened OnChain
  import opened Outcomes
  import opened Schedules
  import opened Staking
  import opened Tables

  /** The read gave the chain's value, or failed. */
  predicate ReadOf<T(==)>(read: Option<T>, truth: Option<T>) {
    read == truth || read == None
  }

  predicate ReadsOperator(truth: EpochOperator, read: EpochOperator) {
    && read.operatorId == truth.operatorId
    && ReadOf(read.sharePrice, truth.sharePrice) && ReadOf(read.operator, truth.operator)
  }

  predicate ReadsEvent(truth: Event, read: Event) {
    match truth
    case OperatorRegistered(id, operator, owner) =>
      read.OperatorRegistered? && read.operatorId == id && ReadOf(read.operator, operator) && ReadOf(read.owner, owner)
    case WithdrewStake(id, nominator, entry) =>
      read.WithdrewStake? && read.operatorId == id && read.nominator == nominator && ReadOf(read.entry, entry)
    case NominatedStakedUnlocked(id, nominator, hasDeposit) =>
      && read.NominatedStakedUnlocked? && read.operatorId == id && read.nominator == nominator
      && ReadOf(read.hasDeposit, hasDeposit)
    case DomainEpochCompleted(domainId, epochIndex, operators) =>
      && read.DomainEpochCompleted? && read.domainId == domainId && read.epochIndex == epochIndex
      && |read.operators| == |operators|
      && forall i | 0 <= i < |operators| :: ReadsOperator(operators[i], read.operators[i])
    case _ => read == truth
  }

  /** `read` is what one attempt may have read of the block `truth`. */
  predicate IsReading(truth: Block, read: Block) {
    && read.height == truth.height && read.time == truth.time && |read.events| == |truth.events|
    && forall i | 0 <= i < |truth.events| :: ReadsEvent(truth.events[i], read.events[i])
  }

  // Rows

  lemma {:induction false} ReadingKeepsFees(truth: Block, read: Block, key: NominatorKey, n: nat)
    requires IsReading(truth, read) && n <= |truth.events|
    ensures FeesFor(read.events[..n], key) == FeesFor(truth.events[..n], key)
    ensures NominationCount(read.events[..n], key) == NominationCount(truth.events[..n], key)
  {
    if n > 0 {
      ReadingKeepsFees(truth, read, key, n - 1);
      assert truth.events[..n][..n - 1] == truth.events[..n - 1] && read.events[..n][..n - 1] == read.events[..n - 1];
      assert ReadsEvent(truth.events[n - 1], read.events[n - 1]);
    }
  }

  /** Every attempt at a block writes the same deposit rows, whatever it could read. */
  lemma {:induction false} ReadingKeepsDeposits(truth: Block, read: Block, n: nat)
    requires IsReading(truth, read) && n <= |truth.events|
    ensures DepositRows(read, n) == DepositRows(truth, n)
  {
    if n > 0 {
      ReadingKeepsDeposits(truth, read, n - 1);
      var event := truth.events[n - 1];
      assert ReadsEvent(event, read.events[n - 1]);
      if event.OperatorNominated? {
        var key := NominatorKey(event.operatorId, event.nominator);
        ReadingKeepsFees(truth, read, key, n - 1);
        ReadingKeepsFees(truth, read, key, |truth.events|);
        assert truth.events[..|truth.events|] == truth.events && read.events[..|truth.events|] == read.events;
      }
    }
  }

  /** The attempt read the withdrawal entries of the first `n` events to the same figures as the chain holds. */
  predicate SameEntries(truth: Block, read: Block, n: nat)
    requires IsReading(truth, read) && n <= |truth.events|
  {
    forall i | 0 <= i < n && truth.events[i].WithdrewStake? ::
      && ReadsEvent(truth.events[i], read.events[i])
      && WithdrawalOf(read.events[i].entry) == WithdrawalOf(truth.events[i].entry)
  }

  lemma {:induction false} SameWithdrawalCount(truth: Block, read: Block, n: nat)
    requires IsReading(truth, read) && n <= |truth.events|
    ensures |WithdrawalRows(read, n)| == |WithdrawalRows(truth, n)|
  {
    if n > 0 {
      SameWithdrawalCount(truth, read, n - 1);
      assert ReadsEvent(truth.events[n - 1], read.events[n - 1]);
    }
  }

  lemma {:induction false} SameRowIff(truth: Block, read: Block, i: nat)
    requires IsReading(truth, read) && i < |truth.events| && truth.events[i].WithdrewStake?
    requires ReadsEvent(truth.events[i], read.events[i])
    ensures WithdrawalRow(read, i) == WithdrawalRow(truth, i)
            <==> WithdrawalOf(read.events[i].entry) == WithdrawalOf(truth.events[i].entry)
  {
    var w, v := WithdrawalOf(read.events[i].entry), WithdrawalOf(truth.events[i].entry);
    assert w == NominatorWithdrawal(w.shares, w.amount, w.storageFeeRefund);
    assert v == NominatorWithdrawal(v.shares, v.amount, v.storageFeeRefund);
  }

  lemma OneMoreEqual<T>(a: seq<T>, x: T, b: seq<T>, y: T)
    requires |a| == |b|
    ensures a + [x] == b + [y] <==> a == b && x == y
  {
    assert a + [x] == b + [y] ==> (a + [x])[..|a|] == a && (b + [y])[..|a|] == b && (a + [x])[|a|] == (b + [y])[|a|];
  }

  lemma {:induction false} SameEntriesStep(truth: Block, read: Block, n: nat)
    requires IsReading(truth, read) && 0 < n <= |truth.events| && ReadsEvent(truth.events[n - 1], read.events[n - 1])
    ensures SameEntries(truth, read, n)
            <==> SameEntries(truth, read, n - 1)
                 && (truth.events[n - 1].WithdrewStake? ==>
                       WithdrawalOf(read.events[n - 1].entry) == WithdrawalOf(truth.events[n - 1].entry))
  {
  }

  /**
   A block's withdrawal rows are written with the chain's figures if and only if the attempt read every
   entry to these figures; else some row has zeros.
   */
  lemma {:induction false} WithdrawalsRightIff(truth: Block, read: Block, n: nat)
    requires IsReading(truth, read) && n <= |truth.events|
    ensures WithdrawalRows(read, n) == WithdrawalRows(truth, n) <==> SameEntries(truth, read, n)
  {
    if n > 0 {
      var a, b := WithdrawalRows(read, n - 1), WithdrawalRows(truth, n - 1);
      WithdrawalsRightIff(truth, read, n - 1);
      SameWithdrawalCount(truth, read, n - 1);
      assert ReadsEvent(truth.events[n - 1], read.events[n - 1]);
      SameEntriesStep(truth, read, n);
      if truth.events[n - 1].WithdrewStake? {
        SameRowIff(truth, read, n - 1);
        OneMoreEqual(a, WithdrawalRow(read, n - 1), b, WithdrawalRow(truth, n - 1));
      } else {
        assert WithdrawalRows(read, n) == a && WithdrawalRows(truth, n) == b;
      }
    }
  }

  /** Whatever can be read, the withdrawal rows have the chain's figures. */
  ghost predicate WithdrawalsAlwaysRight(b: Block) {
    forall read: Block | IsReading(b, read) :: WithdrawalRows(read, |b.events|) == WithdrawalRows(b, |b.events|)
  }

  /** Every withdrawal's entry is absent or all zeros. */
  predicate NothingToRead(b: Block) {
    forall i | 0 <= i < |b.events| && b.events[i].WithdrewStake? ::
      WithdrawalOf(b.events[i].entry) == NominatorWithdrawal(0, 0, 0)
  }

  /** That is so if and only if there is nothing to read. */
  lemma {:induction false} WithdrawalsAlwaysRightIff(b: Block)
    ensures WithdrawalsAlwaysRight(b) <==> NothingToRead(b)
  {
    if NothingToRead(b) {
      forall read: Block | IsReading(b, read)
        ensures WithdrawalRows(read, |b.events|) == WithdrawalRows(b, |b.events|)
      {
        WithdrawalsRightIff(b, read, |b.events|);
      }
    }
    if WithdrawalsAlwaysRight(b) {
      WithdrawalsRightIff(b, AllFailed(b), |b.events|);
      assert SameEntries(b, AllFailed(b), |b.events|);
    }
  }

  // What a block decides for a nominator

  function EventStatus(loop: Loop, event: Event, key: NominatorKey): Option<NominatorStatus> {
    match (loop, event)
    case (Registrations, OperatorRegistered(id, operator, owner)) =>
      if operator.Some? && owner.Some? && NominatorKey(id, owner.value) == key then Some(Active) else None
    case (Nominations, OperatorNominated(id, nominator, _)) =>
      if NominatorKey(id, nominator) == key then Some(Active) else None
    case (Unlocks, NominatorUnlocked(id, nominator)) =>
      if NominatorKey(id, nominator) == key then Some(Withdrawn) else None
    case (StakedUnlocks, NominatedStakedUnlocked(id, nominator, hasDeposit)) =>
      if NominatorKey(id, nominator) != key then None
      else Some(if hasDeposit == Some(false) then Withdrawn else Active)
    case _ => None
  }

  function OrElse<T>(first: Option<T>, second: Option<T>): Option<T> {
    if first.Some? then first else second
  }

  /** The status the last event that matters to a loop gives the nominator. */
  function LoopStatus(loop: Loop, events: seq<Event>, key: NominatorKey): Option<NominatorStatus> {
    if events == [] then None
    else OrElse(EventStatus(loop, events[|events| - 1], key), LoopStatus(loop, events[..|events| - 1], key))
  }

  /** The status a block decides: of the last loop that has one for the nominator. */
  function Decided(events: seq<Event>, key: NominatorKey): Option<NominatorStatus> {
    OrElse(LoopStatus(StakedUnlocks, events, key),
           OrElse(LoopStatus(Unlocks, events, key),
                  OrElse(LoopStatus(Nominations, events, key), LoopStatus(Registrations, events, key))))
  }

  lemma {:induction false} LastStatusAppend(a: seq<Stmt>, b: seq<Stmt>, key: NominatorKey)
    ensures LastStatus(a + b, key) == OrElse(LastStatus(b, key), LastStatus(a, key))
    decreases |b|
  {
    if b == [] {
      assert a + b == a;
    } else {
      LastStatusAppend(a, b[..|b| - 1], key);
      assert (a + b)[..|a + b| - 1] == a + b[..|b| - 1];
    }
  }

  lemma NominatorDecides(height: nat, id: OperatorId, address: Address, status: NominatorStatus, key: NominatorKey)
    ensures LastStatus(Nominator(height, id, address, status), key)
            == if NominatorKey(id, address) == key then Some(status) else None
  {
    var upsert := UpsertNominator(NominatorKey(id, address), status, height);
    LastStatusOneMore([], upsert, key);
    LastStatusOneMore([upsert], RecountNominators(id), key);
    assert [] + [upsert] == [upsert];
    assert [upsert] + [RecountNominators(id)] == Nominator(height, id, address, status);
  }

  lemma LastStatusOfOne(stmt: Stmt, key: NominatorKey)
    requires !stmt.UpsertNominator?
    ensures LastStatus([stmt], key) == None
  {
    assert [stmt][..0] == [];
  }

  lemma {:induction false} EpochDecidesNothing(b: Block, event: Event, n: nat, key: NominatorKey)
    requires event.DomainEpochCompleted? && n <= |event.operators|
    ensures LastStatus(EpochStmts(b, event, n), key) == None
  {
    if n > 0 {
      EpochDecidesNothing(b, event, n - 1, key);
      var operator := event.operators[n - 1];
      if operator.sharePrice.Some? && operator.operator.Some? {
        var price := UpsertSharePrice(
          PriceKey(event, operator), PriceRow(b, operator.sharePrice.value, operator.operator.value));
        var stats := UpdateOperatorStats(operator.operatorId, operator.operator.value.Stats());
        LastStatusOneMore([price], stats, key);
        LastStatusOfOne(price, key);
        assert [price] + [stats] == [price, stats];
        LastStatusAppend(EpochStmts(b, event, n - 1), [price, stats], key);
      } else {
        assert EpochStmts(b, event, n) == EpochStmts(b, event, n - 1);
      }
    }
  }

  lemma {:induction false} EventDecides(b: Block, loop: Loop, i: nat, key: NominatorKey)
    requires i < |b.events|
    ensures LastStatus(StmtsOf(b, loop, i), key) == EventStatus(loop, b.events[i], key)
  {
    match (loop, b.events[i]) {
      case (Registrations, OperatorRegistered(id, operator, owner)) =>
        if operator.Some? && owner.Some? {
          var upsert := UpsertOperator(id, operator.value.Identity(owner.value), operator.value.Stats());
          LastStatusOfOne(upsert, key);
          NominatorDecides(b.height, id, owner.value, Active, key);
          LastStatusAppend([upsert], Nominator(b.height, id, owner.value, Active), key);
        }
      case (Deregistrations, OperatorDeregistered(id)) => LastStatusOfOne(UpdateOperatorStatus(id, Deregistered), key);
      case (Slashings, OperatorSlashed(id)) => LastStatusOfOne(UpdateOperatorStatus(id, Slashed), key);
      case (Deactivations, OperatorDeactivated(id)) => LastStatusOfOne(UpdateOperatorStatus(id, Deactivated), key);
      case (Reactivations, OperatorReactivated(id)) => LastStatusOfOne(UpdateOperatorStatus(id, Registered), key);
      case (Nominations, OperatorNominated(id, nominator, _)) =>
        NominatorDecides(b.height, id, nominator, Active, key);
        LastStatusOneMore(Nominator(b.height, id, nominator, Active), InsertDeposit(DepositRow(b, i)), key);
      case (Withdrawals, WithdrewStake(_, _, _)) => LastStatusOfOne(InsertWithdrawal(WithdrawalRow(b, i)), key);
      case (Unlocks, NominatorUnlocked(id, nominator)) => NominatorDecides(b.height, id, nominator, Withdrawn, key);
      case (StakedUnlocks, NominatedStakedUnlocked(id, nominator, hasDeposit)) =>
        NominatorDecides(b.height, id, nominator, if hasDeposit == Some(false) then Withdrawn else Active, key);
      case (Epochs, DomainEpochCompleted(_, _, operators)) => EpochDecidesNothing(b, b.events[i], |operators|, key);
      case _ =>
    }
  }

  lemma {:induction false} GatherDecides(b: Block, loop: Loop, n: nat, key: NominatorKey)
    requires n <= |b.events|
    ensures LastStatus(Gather(b, loop, n), key) == LoopStatus(loop, b.events[..n], key)
  {
    hide StmtsOf;
    if n > 0 {
      GatherDecides(b, loop, n - 1, key);
      EventDecides(b, loop, n - 1, key);
      LastStatusAppend(Gather(b, loop, n - 1), StmtsOf(b, loop, n - 1), key);
      OneMoreEvent(loop, b.events, n - 1, key);
    }
  }

  lemma OneMoreEvent(loop: Loop, events: seq<Event>, n: nat, key: NominatorKey)
    requires n < |events|
    ensures LoopStatus(loop, events[..n + 1], key)
            == OrElse(EventStatus(loop, events[n], key), LoopStatus(loop, events[..n], key))
  {
    assert events[..n + 1][..n] == events[..n];
  }

  /** The status the first `k` loops decide. */
  function DecidedUpTo(events: seq<Event>, k: nat, key: NominatorKey): Option<NominatorStatus>
    requires k <= |LOOPS|
  {
    if k == 0 then None else OrElse(LoopStatus(LOOPS[k - 1], events, key), DecidedUpTo(events, k - 1, key))
  }

  lemma {:induction false} ProgramDecidesUpTo(b: Block, k: nat, key: NominatorKey)
    requires k <= |LOOPS|
    ensures LastStatus(ProgramUpTo(b, k), key) == DecidedUpTo(b.events, k, key)
  {
    if k == 0 {
      LastStatusOfOne(DeleteDeposits(b.height), key);
      LastStatusOneMore([DeleteDeposits(b.height)], DeleteWithdrawals(b.height), key);
      assert [DeleteDeposits(b.height)] + [DeleteWithdrawals(b.height)] == ProgramUpTo(b, 0);
    } else {
      ProgramDecidesUpTo(b, k - 1, key);
      GatherDecides(b, LOOPS[k - 1], |b.events|, key);
      assert b.events[..|b.events|] == b.events;
      LastStatusAppend(ProgramUpTo(b, k - 1), Gather(b, LOOPS[k - 1], |b.events|), key);
    }
  }

  lemma {:induction false} OtherLoopsDecideNothing(loop: Loop, events: seq<Event>, key: NominatorKey)
    requires !loop.Registrations? && !loop.Nominations? && !loop.Unlocks? && !loop.StakedUnlocks?
    ensures LoopStatus(loop, events, key) == None
  {
    if events != [] {
      OtherLoopsDecideNothing(loop, events[..|events| - 1], key);
    }
  }

  lemma {:induction false} DecidedInLoopOrder(events: seq<Event>, key: NominatorKey)
    ensures DecidedUpTo(events, |LOOPS|, key) == Decided(events, key)
  {
    OtherLoopsDecideNothing(Epochs, events, key);
    OtherLoopsDecideNothing(Withdrawals, events, key);
    OtherLoopsDecideNothing(Reactivations, events, key);
    OtherLoopsDecideNothing(Deactivations, events, key);
    OtherLoopsDecideNothing(Slashings, events, key);
    OtherLoopsDecideNothing(Deregistrations, events, key);
    assert LOOPS[9] == Epochs && LOOPS[8] == StakedUnlocks && LOOPS[7] == Unlocks;
    assert LOOPS[6] == Withdrawals && LOOPS[5] == Nominations && LOOPS[4] == Reactivations;
    assert LOOPS[3] == Deactivations && LOOPS[2] == Slashings && LOOPS[1] == Deregistrations;
    assert DecidedUpTo(events, 1, key) == LoopStatus(Registrations, events, key);
    assert DecidedUpTo(events, 2, key) == DecidedUpTo(events, 1, key);
    assert DecidedUpTo(events, 3, key) == DecidedUpTo(events, 2, key);
    assert DecidedUpTo(events, 4, key) == DecidedUpTo(events, 3, key);
    assert DecidedUpTo(events, 5, key) == DecidedUpTo(events, 4, key);
    assert DecidedUpTo(events, 6, key) == OrElse(LoopStatus(Nominations, events, key), DecidedUpTo(events, 5, key));
    assert DecidedUpTo(events, 7, key) == DecidedUpTo(events, 6, key);
    assert DecidedUpTo(events, 8, key) == OrElse(LoopStatus(Unlocks, events, key), DecidedUpTo(events, 7, key));
    assert DecidedUpTo(events, 9, key) == OrElse(LoopStatus(StakedUnlocks, events, key), DecidedUpTo(events, 8, key));
    assert DecidedUpTo(events, 10, key) == DecidedUpTo(events, 9, key);
  }

  /** A block's statements set exactly the statuses its events decide. */
  lemma {:induction false} ProgramDecides(b: Block, key: NominatorKey)
    ensures LastStatus(Program(b), key) == Decided(b.events, key)
  {
    ProgramDecidesUpTo(b, |LOOPS|, key);
    DecidedInLoopOrder(b.events, key);
  }

  // When a failed read changes it

  /**
   The block's decision for the nominator hangs on a read: its last unlock of staked funds finds the
   deposit gone, or nothing but the registration of the operator it owns makes it a nominator.
   */
  predicate HangsOnRead(events: seq<Event>, key: NominatorKey) {
    match LoopStatus(StakedUnlocks, events, key)
    case Some(status) => status == Withdrawn
    case None =>
      && LoopStatus(Unlocks, events, key).None? && LoopStatus(Nominations, events, key).None?
      && LoopStatus(Registrations, events, key).Some?
  }

  lemma EventsAgreeOn(truth: Event, read: Event, key: NominatorKey)
    requires ReadsEvent(truth, read)
    ensures EventStatus(Unlocks, read, key) == EventStatus(Unlocks, truth, key)
    ensures EventStatus(Nominations, read, key) == EventStatus(Nominations, truth, key)
    ensures EventStatus(StakedUnlocks, read, key).Some? <==> EventStatus(StakedUnlocks, truth, key).Some?
    ensures EventStatus(StakedUnlocks, truth, key) == Some(Active) ==>
              EventStatus(StakedUnlocks, read, key) == Some(Active)
    ensures EventStatus(Registrations, truth, key) == None ==> EventStatus(Registrations, read, key) == None
  {
  }

  lemma {:induction false} ReadingsAgreeOn(truth: seq<Event>, read: seq<Event>, key: NominatorKey)
    requires |read| == |truth| && forall i | 0 <= i < |truth| :: ReadsEvent(truth[i], read[i])
    ensures LoopStatus(Unlocks, read, key) == LoopStatus(Unlocks, truth, key)
    ensures LoopStatus(Nominations, read, key) == LoopStatus(Nominations, truth, key)
    ensures LoopStatus(StakedUnlocks, read, key).Some? <==> LoopStatus(StakedUnlocks, truth, key).Some?
    ensures LoopStatus(StakedUnlocks, truth, key) == Some(Active) ==>
              LoopStatus(StakedUnlocks, read, key) == Some(Active)
    ensures LoopStatus(Registrations, truth, key) == None ==> LoopStatus(Registrations, read, key) == None
  {
    if truth != [] {
      ReadingsAgreeOn(truth[..|truth| - 1], read[..|read| - 1], key);
      EventsAgreeOn(truth[|truth| - 1], read[|read| - 1], key);
    }
  }

  lemma {:induction false} DecidedWithoutRead(truth: seq<Event>, read: seq<Event>, key: NominatorKey)
    requires |read| == |truth| && forall i | 0 <= i < |truth| :: ReadsEvent(truth[i], read[i])
    requires !HangsOnRead(truth, key)
    ensures Decided(read, key) == Decided(truth, key)
  {
    ReadingsAgreeOn(truth, read, key);
  }

  function FailedEvent(event: Event): Event {
    match event
    case OperatorRegistered(id, _, _) => OperatorRegistered(id, None, None)
    case WithdrewStake(id, nominator, _) => WithdrewStake(id, nominator, None)
    case NominatedStakedUnlocked(id, nominator, _) => NominatedStakedUnlocked(id, nominator, None)
    case DomainEpochCompleted(domainId, epochIndex, operators) =>
      DomainEpochCompleted(
        domainId, epochIndex,
        seq(|operators|, i requires 0 <= i < |operators| => EpochOperator(operators[i].operatorId, None, None)))
    case _ => event
  }

  /** The reading in which every tolerated read failed. */
  function AllFailed(truth: Block): (read: Block)
    ensures IsReading(truth, read)
  {
    Block(truth.height, truth.time,
          seq(|truth.events|, i requires 0 <= i < |truth.events| => FailedEvent(truth.events[i])))
  }

  lemma {:induction false} FailedDecides(truth: seq<Event>, read: seq<Event>, key: NominatorKey)
    requires |read| == |truth| && forall i | 0 <= i < |truth| :: read[i] == FailedEvent(truth[i])
    ensures LoopStatus(StakedUnlocks, read, key) != Some(Withdrawn)
    ensures LoopStatus(Registrations, read, key) == None
  {
    if truth != [] {
      FailedDecides(truth[..|truth| - 1], read[..|read| - 1], key);
    }
  }

  /** A decision that hangs on a read comes out differently when the reads fail. */
  lemma {:induction false} FailureChangesDecision(truth: Block, key: NominatorKey)
    requires HangsOnRead(truth.events, key)
    ensures Decided(AllFailed(truth).events, key) != Decided(truth.events, key)
  {
    ReadingsAgreeOn(truth.events, AllFailed(truth).events, key);
    FailedDecides(truth.events, AllFailed(truth).events, key);
  }

  // Convergence of staking blocks

  /** The attempts that may be made at the blocks of a fixed chain. */
  ghost function ReadingsOf(chain: seq<Block>): Attempts {
    iset n: nat, read: Block | n < |chain| && IsReading(chain[n], read) :: (n, Program(read))
  }

  ghost predicate Numbered(chain: seq<Block>) {
    forall n | 0 <= n < |chain| :: chain[n].height == n
  }

  lemma {:induction false} ReadingsAreBlockPrograms(chain: seq<Block>)
    requires Numbered(chain)
    ensures AreBlockPrograms(ReadingsOf(chain))
  {
    forall n, p | (n, p) in ReadingsOf(chain)
      ensures IsBlockProgram(p, n)
    {
      var read: Block :| IsReading(chain[n], read) && p == Program(read);
      ProgramIsBlockProgram(read);
    }
  }

  lemma {:induction false} ReadingDecides(chain: seq<Block>, n: nat, p: seq<Stmt>, key: NominatorKey)
    requires (n, p) in ReadingsOf(chain) && n < |chain| && !HangsOnRead(chain[n].events, key)
    ensures LastStatus(p, key) == Decided(chain[n].events, key)
  {
    var read: Block :| IsReading(chain[n], read) && p == Program(read);
    ProgramDecides(read, key);
    DecidedWithoutRead(chain[n].events, read.events, key);
  }

  /** No block of the chain decides a nominator's status by a read that may fail. */
  ghost predicate NoDecisionHangs(chain: seq<Block>) {
    forall n, key | 0 <= n < |chain| :: !HangsOnRead(chain[n].events, key)
  }

  /**
   On a fixed chain, all complete schedules of the same blocks leave the same nominators table,
   whatever fails to be read in whichever attempt, if and only if no block's decision hangs on a read.
   */
  lemma {:induction false} ConvergesIffNoDecisionHangs(chain: seq<Block>)
    requires Numbered(chain)
    ensures AlwaysConverges(ReadingsOf(chain)) <==> NoDecisionHangs(chain)
  {
    ReadingsAreBlockPrograms(chain);
    ConvergesIffDecidedAlike(ReadingsOf(chain));
    if NoDecisionHangs(chain) {
      forall n, p, q, key | (n, p) in ReadingsOf(chain) && (n, q) in ReadingsOf(chain)
        ensures SameDecision(p, q, key)
      {
        ReadingDecides(chain, n, p, key);
        ReadingDecides(chain, n, q, key);
      }
    }
    if AttemptsDecideAlike(ReadingsOf(chain)) {
      forall n, key | 0 <= n < |chain|
        ensures !HangsOnRead(chain[n].events, key)
      {
        BothReadings(chain, n, key);
        assert SameDecision(Program(chain[n]), Program(AllFailed(chain[n])), key);
      }
    }
  }

  lemma {:induction false} BothReadings(chain: seq<Block>, n: nat, key: NominatorKey)
    requires n < |chain|
    ensures (n, Program(chain[n])) in ReadingsOf(chain) && (n, Program(AllFailed(chain[n]))) in ReadingsOf(chain)
    ensures HangsOnRead(chain[n].events, key) ==>
              !SameDecision(Program(chain[n]), Program(AllFailed(chain[n])), key)
  {
    assert IsReading(chain[n], chain[n]);
    ProgramDecides(chain[n], key);
    ProgramDecides(AllFailed(chain[n]), key);
    if HangsOnRead(chain[n].events, key) {
      FailureChangesDecision(chain[n], key);
    }
  }

  /** One unlock of the last staked funds of nominator 0 with operator 0. */
  const LAST_UNLOCK := Block(0, 0, [NominatedStakedUnlocked(0, 0, Some(false))])

  /** The failing case: one failed read and the nominator is active, without it withdrawn. */
  lemma {:induction false} FailedReadKeepsNominator()
    ensures var p, q := Program(LAST_UNLOCK), Program(AllFailed(LAST_UNLOCK));
            var key := NominatorKey(0, 0);
            && (0, p) in ReadingsOf([LAST_UNLOCK]) && (0, q) in ReadingsOf([LAST_UNLOCK])
            && Lookup(TablesAfter(Whole(0, p, |p|)).nominators, key) == Some(NominatorRow(Withdrawn, 0))
            && Lookup(TablesAfter(Whole(0, q, |q|)).nominators, key) == Some(NominatorRow(Active, 0))
    ensures !AlwaysConverges(ReadingsOf([LAST_UNLOCK]))
  {
    var key := NominatorKey(0, 0);
    var events, failed := LAST_UNLOCK.events, AllFailed(LAST_UNLOCK).events;
    assert events[..0] == [] && failed[..0] == [];
    assert LoopStatus(StakedUnlocks, events, key) == Some(Withdrawn);
    assert LoopStatus(StakedUnlocks, failed, key) == Some(Active);
    ProgramDecides(LAST_UNLOCK, key);
    ProgramDecides(AllFailed(LAST_UNLOCK), key);
    BothReadings([LAST_UNLOCK], 0, key);
    ReadingsAreBlockPrograms([LAST_UNLOCK]);
    SingleAttemptRow(0, Program(LAST_UNLOCK), ReadingsOf([LAST_UNLOCK]), key);
    SingleAttemptRow(0, Program(AllFailed(LAST_UNLOCK)), ReadingsOf([LAST_UNLOCK]), key);
    assert HangsOnRead([LAST_UNLOCK][0].events, key);
    ConvergesIffNoDecisionHangs([LAST_UNLOCK]);
  }

  /** One withdrawal of 5 shares. */
  const WITHDRAWAL := Block(0, 0, [WithdrewStake(0, 0, Some(NominatorWithdrawal(5, 0, 0)))])

  /** The failing case: the completed block's row has 5 shares, or none after a failed read. */
  lemma {:induction false} FailedReadLosesWithdrawal()
    ensures var p, q := Program(WITHDRAWAL), Program(AllFailed(WITHDRAWAL));
            && (0, p) in ReadingsOf([WITHDRAWAL]) && (0, q) in ReadingsOf([WITHDRAWAL])
            && At(TablesAfter(Whole(0, p, |p|)).withdrawals, 0) == [Row(0, Withdrawal(0, 0, 5, 0, 0, 0))]
            && At(TablesAfter(Whole(0, q, |q|)).withdrawals, 0) == [Row(0, Withdrawal(0, 0, 0, 0, 0, 0))]
  {
    BothReadings([WITHDRAWAL], 0, NominatorKey(0, 0));
    WholeWithdrawals(WITHDRAWAL);
    WholeWithdrawals(AllFailed(WITHDRAWAL));
    assert WithdrawalRows(WITHDRAWAL, 0) == [] && WithdrawalRows(AllFailed(WITHDRAWAL), 0) == [];
  }

  /** Completed by one attempt, a block has the withdrawal rows it read. */
  lemma {:induction false} WholeWithdrawals(read: Block)
    requires read.height == 0
    ensures var p := Program(read);
            At(TablesAfter(Whole(0, p, |p|)).withdrawals, 0) == WithdrawalRows(read, |read.events|)
  {
    var p := Program(read);
    ProgramIsBlockProgram(read);
    WholeAlone(0, p, 0);
    AllRunBlockPrograms(Whole(0, p, |p|));
    CompleteBlockHasItsRows(Whole(0, p, |p|), 0);
    ProgramInserts(read);
  }
}
