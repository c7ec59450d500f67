/** What an indexed block leaves in the operators and share-price tables, column by column. */
module OperatorRows {
  import opened BlockParts
  import opened OnChain
  import opened Staking
  import opened Tables

  // One event

  /** The operator's row, if there is one, has this status, and all else is as it was. */
  ghost predicate StatusSet(t: Tables, after: Tables, id: OperatorId, status: OperatorStatus) {
    && after == t.(operators := after.operators)
    && after.operators.Keys == t.operators.Keys
    && (forall other | other in t.operators && other != id :: after.operators[other] == t.operators[other])
    && (id in t.operators ==>
          var was, row := t.operators[id], after.operators[id];
          && row.stats.status == status && row.identity == was.identity && row.nominatorCount == was.nominatorCount
          && row.stats.totalStake == was.stats.totalStake && row.stats.totalShares == was.stats.totalShares
          && row.stats.totalStorageFeeDeposit == was.stats.totalStorageFeeDeposit)
  }

  /** The four status events set exactly these statuses. */
  lemma {:induction false} StatusEvents(t: Tables, b: Block, i: nat)
    requires i < |b.events|
    ensures b.events[i].OperatorDeregistered? ==>
              StatusSet(t, ExecAll(t, StmtsOf(b, Deregistrations, i)), b.events[i].operatorId, Deregistered)
    ensures b.events[i].OperatorSlashed? ==>
              StatusSet(t, ExecAll(t, StmtsOf(b, Slashings, i)), b.events[i].operatorId, Slashed)
    ensures b.events[i].OperatorDeactivated? ==>
              StatusSet(t, ExecAll(t, StmtsOf(b, Deactivations, i)), b.events[i].operatorId, Deactivated)
    ensures b.events[i].OperatorReactivated? ==>
              StatusSet(t, ExecAll(t, StmtsOf(b, Reactivations, i)), b.events[i].operatorId, Registered)
  {
    match b.events[i]
    case OperatorDeregistered(id) => ExecOne(t, UpdateOperatorStatus(id, Deregistered));
    case OperatorSlashed(id) => ExecOne(t, UpdateOperatorStatus(id, Slashed));
    case OperatorDeactivated(id) => ExecOne(t, UpdateOperatorStatus(id, Deactivated));
    case OperatorReactivated(id) => ExecOne(t, UpdateOperatorStatus(id, Registered));
    case _ =>
  }

  /** The columns that a read of the operator overwrites, each with its own field. */
  ghost predicate ShowsStats(row: OperatorRow, operator: FullOperator) {
    && row.stats.status == operator.status
    && row.stats.totalStake == operator.currentTotalStake
    && row.stats.totalShares == operator.currentTotalShares
    && row.stats.totalStorageFeeDeposit == operator.totalStorageFeeDeposit
  }

  /** The columns that its first insert fixes, each with its own field. */
  ghost predicate ShowsIdentity(row: OperatorRow, operator: FullOperator, owner: Address) {
    && row.identity.domainId == operator.currentDomainId
    && row.identity.ownerAccount == owner
    && row.identity.signingKey == operator.signingKey
    && row.identity.minimumNominatorStake == operator.minimumNominatorStake
    && row.identity.nominationTax == operator.nominationTax
  }

  /**
   A registration that could be read overwrites the operator's stats, sets the other columns if the row is
   new, and makes the owner an active nominator unless a newer block wrote that row. One that could not be
   read does nothing.
   */
  lemma {:induction false} RegistrationColumns(t: Tables, b: Block, i: nat)
    requires i < |b.events| && b.events[i].OperatorRegistered?
    ensures var event, after := b.events[i], ExecAll(t, StmtsOf(b, Registrations, i));
            if event.operator.None? || event.owner.None? then after == t
            else
              var key := NominatorKey(event.operatorId, event.owner.value);
              && event.operatorId in after.operators
              && ShowsStats(after.operators[event.operatorId], event.operator.value)
              && (event.operatorId !in t.operators ==>
                    ShowsIdentity(after.operators[event.operatorId], event.operator.value, event.owner.value))
              && (event.operatorId in t.operators ==>
                    after.operators[event.operatorId].identity == t.operators[event.operatorId].identity)
              && (forall other | other != event.operatorId ::
                    && (other in after.operators <==> other in t.operators)
                    && (other in t.operators ==> after.operators[other] == t.operators[other]))
              && after.nominators
                 == (if key in t.nominators && b.height < t.nominators[key].height then t.nominators
                     else t.nominators[key := NominatorRow(Active, b.height)])
              && after.deposits == t.deposits && after.withdrawals == t.withdrawals
              && after.sharePrices == t.sharePrices
  {
    var event := b.events[i];
    if event.operator.Some? && event.owner.Some? {
      var upsert := UpsertOperator(
        event.operatorId, event.operator.value.Identity(event.owner.value), event.operator.value.Stats());
      var owner := UpsertNominator(NominatorKey(event.operatorId, event.owner.value), Active, b.height);
      var recount := RecountNominators(event.operatorId);
      assert StmtsOf(b, Registrations, i) == [upsert] + [owner] + [recount];
      ExecAllAppend(t, [upsert] + [owner], [recount]);
      ExecAllAppend(t, [upsert], [owner]);
      ExecOne(t, upsert);
      ExecOne(Exec(t, upsert), owner);
      ExecOne(Exec(Exec(t, upsert), owner), recount);
    }
  }

  // A completed epoch

  /** The statements of an epoch for the operators from the `j`-th on. */
  function EpochFrom(b: Block, event: Event, j: nat): seq<Stmt>
    requires event.DomainEpochCompleted? && j <= |event.operators|
    decreases |event.operators| - j
  {
    if j == |event.operators| then []
    else OperatorStmts(b, event, j) + EpochFrom(b, event, j + 1)
  }

  function OperatorStmts(b: Block, event: Event, j: nat): seq<Stmt>
    requires event.DomainEpochCompleted? && j < |event.operators|
  {
    var operator := event.operators[j];
    if operator.sharePrice.None? || operator.operator.None? then []
    else [UpsertSharePrice(PriceKey(event, operator), PriceRow(b, operator.sharePrice.value, operator.operator.value))]
         + [UpdateOperatorStats(operator.operatorId, operator.operator.value.Stats())]
  }

  lemma {:induction false} EpochSplits(b: Block, event: Event, j: nat)
    requires event.DomainEpochCompleted? && j <= |event.operators|
    ensures EpochStmts(b, event, |event.operators|) == EpochStmts(b, event, j) + EpochFrom(b, event, j)
    decreases |event.operators| - j
  {
    if j < |event.operators| {
      EpochSplits(b, event, j + 1);
      var operator := event.operators[j];
      if operator.sharePrice.Some? && operator.operator.Some? {
        var price := UpsertSharePrice(
          PriceKey(event, operator), PriceRow(b, operator.sharePrice.value, operator.operator.value));
        var stats := UpdateOperatorStats(operator.operatorId, operator.operator.value.Stats());
        assert [price] + [stats] == [price, stats];
      }
      Joined(EpochStmts(b, event, j), OperatorStmts(b, event, j), EpochFrom(b, event, j + 1));
    }
  }

  predicate Read(operator: EpochOperator) {
    operator.sharePrice.Some? && operator.operator.Some?
  }

  /** The price row of an operator that could be read. */
  ghost predicate ShowsPrice(t: Tables, b: Block, event: Event, operator: EpochOperator)
    requires event.DomainEpochCompleted? && Read(operator)
  {
    var key := SharePriceKey(operator.operatorId, event.domainId, event.epochIndex);
    && key in t.sharePrices
    && var row, read := t.sharePrices[key], operator.operator.value;
       && row.sharePrice == operator.sharePrice.value
       && row.totalStake == read.currentTotalStake && row.totalShares == read.currentTotalShares
       && row.height == b.height && row.time == b.time
  }

  lemma {:induction false} OperatorEffect(t: Tables, b: Block, event: Event, j: nat)
    requires event.DomainEpochCompleted? && j < |event.operators|
    ensures var operator, after := event.operators[j], ExecAll(t, OperatorStmts(b, event, j));
            if !Read(operator) then after == t
            else
              && ShowsPrice(after, b, event, operator)
              && after.operators.Keys == t.operators.Keys
              && (operator.operatorId in t.operators ==>
                    ShowsStats(after.operators[operator.operatorId], operator.operator.value))
  {
    var operator := event.operators[j];
    if Read(operator) {
      var price := UpsertSharePrice(
        PriceKey(event, operator), PriceRow(b, operator.sharePrice.value, operator.operator.value));
      var stats := UpdateOperatorStats(operator.operatorId, operator.operator.value.Stats());
      ExecAllAppend(t, [price], [stats]);
      ExecOne(t, price);
      ExecOne(Exec(t, price), stats);
    }
  }

  // What later statements leave alone

  /** The statement writes stats or status of the operator's row. */
  predicate WritesStats(stmt: Stmt, id: OperatorId) {
    || (stmt.UpsertOperator? && stmt.operatorId == id)
    || (stmt.UpdateOperatorStatus? && stmt.operatorId == id)
    || (stmt.UpdateOperatorStats? && stmt.operatorId == id)
  }

  ghost predicate LeavesStats(stmts: seq<Stmt>, id: OperatorId) {
    forall stmt | stmt in stmts :: !WritesStats(stmt, id)
  }

  ghost predicate LeavesPrice(stmts: seq<Stmt>, key: SharePriceKey) {
    forall stmt | stmt in stmts :: !(stmt.UpsertSharePrice? && stmt.priceKey == key)
  }

  /** The operator has the same stats in both, if it has a row. */
  ghost predicate SameStats(t: Tables, after: Tables, id: OperatorId) {
    && (id in t.operators <==> id in after.operators)
    && (id in t.operators ==> t.operators[id].stats == after.operators[id].stats)
  }

  lemma {:induction false} StatsStay(t: Tables, stmts: seq<Stmt>, id: OperatorId)
    requires LeavesStats(stmts, id)
    ensures SameStats(t, ExecAll(t, stmts), id)
  {
    if stmts != [] {
      var init, last := stmts[..|stmts| - 1], stmts[|stmts| - 1];
      assert stmts == init + [last];
      StatsStay(t, init, id);
      assert last in stmts;
    }
  }

  lemma {:induction false} PriceStays(t: Tables, stmts: seq<Stmt>, key: SharePriceKey)
    requires LeavesPrice(stmts, key)
    ensures key in ExecAll(t, stmts).sharePrices <==> key in t.sharePrices
    ensures key in t.sharePrices ==> ExecAll(t, stmts).sharePrices[key] == t.sharePrices[key]
  {
    if stmts != [] {
      var init, last := stmts[..|stmts| - 1], stmts[|stmts| - 1];
      assert stmts == init + [last];
      PriceStays(t, init, key);
      assert last in stmts;
    }
  }

  lemma LeaveJoined(a: seq<Stmt>, b: seq<Stmt>, id: OperatorId, key: SharePriceKey)
    ensures LeavesStats(a, id) && LeavesStats(b, id) ==> LeavesStats(a + b, id)
    ensures LeavesPrice(a, key) && LeavesPrice(b, key) ==> LeavesPrice(a + b, key)
  {
  }

  /** The event has a readable entry for the operator. */
  predicate EntersOperator(event: Event, id: OperatorId) {
    && event.DomainEpochCompleted?
    && exists operator | operator in event.operators :: operator.operatorId == id && Read(operator)
  }

  /** In this loop the event writes the operator's stats or status. */
  predicate Bears(loop: Loop, event: Event, id: OperatorId) {
    match loop
    case Registrations =>
      event.OperatorRegistered? && event.operatorId == id && event.operator.Some? && event.owner.Some?
    case Deregistrations => event == OperatorDeregistered(id)
    case Slashings => event == OperatorSlashed(id)
    case Deactivations => event == OperatorDeactivated(id)
    case Reactivations => event == OperatorReactivated(id)
    case Epochs => EntersOperator(event, id)
    case _ => false
  }

  /** The event has a readable entry whose price goes to this row. */
  predicate Prices(event: Event, key: SharePriceKey) {
    && event.DomainEpochCompleted? && event.domainId == key.domainId && event.epochIndex == key.epochIndex
    && EntersOperator(event, key.operatorId)
  }

  lemma {:induction false} EpochFromLeaves(b: Block, event: Event, j: nat, id: OperatorId, key: SharePriceKey)
    requires event.DomainEpochCompleted? && j <= |event.operators|
    ensures (forall k | j <= k < |event.operators| && Read(event.operators[k]) ::
               event.operators[k].operatorId != id) ==>
              LeavesStats(EpochFrom(b, event, j), id)
    ensures (forall k | j <= k < |event.operators| && Read(event.operators[k]) ::
               SharePriceKey(event.operators[k].operatorId, event.domainId, event.epochIndex) != key) ==>
              LeavesPrice(EpochFrom(b, event, j), key)
    decreases |event.operators| - j
  {
    if j < |event.operators| {
      EpochFromLeaves(b, event, j + 1, id, key);
      LeaveJoined(OperatorStmts(b, event, j), EpochFrom(b, event, j + 1), id, key);
    }
  }

  lemma {:induction false} EventLeaves(b: Block, loop: Loop, i: nat, id: OperatorId, key: SharePriceKey)
    requires i < |b.events|
    ensures !Bears(loop, b.events[i], id) ==> LeavesStats(StmtsOf(b, loop, i), id)
    ensures !(loop.Epochs? && Prices(b.events[i], key)) ==> LeavesPrice(StmtsOf(b, loop, i), key)
  {
    var event := b.events[i];
    if loop.Epochs? && event.DomainEpochCompleted? {
      EpochSplits(b, event, 0);
      EmptyEnds(EpochFrom(b, event, 0));
      assert forall k | 0 <= k < |event.operators| :: event.operators[k] in event.operators;
      EpochFromLeaves(b, event, 0, id, key);
    }
  }

  // The whole block

  /** No event from the `i`-th on in the `k`-th loop, nor any in a later loop, bears on the operator. */
  ghost predicate NoneBearsFrom(b: Block, k: nat, i: nat, id: OperatorId) {
    forall m, j | 0 <= m < |LOOPS| && 0 <= j < |b.events| && (k < m || (k == m && i <= j)) ::
      !Bears(LOOPS[m], b.events[j], id)
  }

  /** The `k`-th loop's event at index `i` is the last to bear on the operator. */
  ghost predicate LastToBear(b: Block, k: nat, i: nat, id: OperatorId) {
    k < |LOOPS| && i < |b.events| && Bears(LOOPS[k], b.events[i], id) && NoneBearsFrom(b, k, i + 1, id)
  }

  lemma {:induction false} LaterLeavesStats(b: Block, k: nat, i: nat, id: OperatorId)
    requires k < |LOOPS| && i <= |b.events| && NoneBearsFrom(b, k, i, id)
    ensures LeavesStats(Later(b, k, i), id)
  {
    forall stmt | stmt in Later(b, k, i)
      ensures !WritesStats(stmt, id)
    {
      var m, j := InLater(b, k, i, stmt);
      EventLeaves(b, LOOPS[m], j, id, SharePriceKey(id, 0, 0));
    }
  }

  lemma RestKeepsStats(
    t: Tables, earlier: seq<Stmt>, own: seq<Stmt>, later: seq<Stmt>, all: seq<Stmt>, id: OperatorId)
    requires all == earlier + (own + later) && LeavesStats(later, id)
    ensures SameStats(ExecAll(ExecAll(t, earlier), own), ExecAll(t, all), id)
  {
    ExecThree(t, earlier, own, later);
    StatsStay(ExecAll(ExecAll(t, earlier), own), later, id);
  }

  /** When no later event bears on an operator, this one leaves its stats for the block. */
  lemma {:induction false} LastToBearDecides(t: Tables, b: Block, k: nat, i: nat, id: OperatorId)
    requires k < |LOOPS| && i < |b.events| && NoneBearsFrom(b, k, i + 1, id)
    ensures SameStats(AfterEvent(t, b, k, i), ExecAll(t, Program(b)), id)
  {
    hide StmtsOf, ExecAll;
    BlockSplits(b, k, i);
    LaterLeavesStats(b, k, i + 1, id);
    RestKeepsStats(t, Earlier(b, k, i), StmtsOf(b, LOOPS[k], i), Later(b, k, i + 1), Program(b), id);
  }

  /** The operator's row, if there is one, has the status that the event stands for. */
  ghost predicate ShowsStatus(t: Tables, event: Event, id: OperatorId) {
    id in t.operators ==>
      var status := t.operators[id].stats.status;
      && (event.OperatorDeregistered? ==> status == Deregistered)
      && (event.OperatorSlashed? ==> status == Slashed)
      && (event.OperatorDeactivated? ==> status == Deactivated)
      && (event.OperatorReactivated? ==> status == Registered)
  }

  lemma StatusCarries(so: Tables, after: Tables, event: Event, id: OperatorId)
    requires SameStats(so, after, id) && ShowsStatus(so, event, id)
    ensures ShowsStatus(after, event, id)
  {
  }

  lemma {:induction false} EventShowsStatus(t: Tables, b: Block, k: nat, i: nat, id: OperatorId)
    requires k < |LOOPS| && i < |b.events| && Bears(LOOPS[k], b.events[i], id)
    ensures ShowsStatus(ExecAll(t, StmtsOf(b, LOOPS[k], i)), b.events[i], id)
  {
    StatusEvents(t, b, i);
  }

  /**
   The status an indexed block leaves, when the last event to bear on the operator is a deregistration, a
   slashing, a deactivation or a reactivation, in the order of the loops.
   */
  lemma {:induction false} StatusAfterBlock(t: Tables, b: Block, k: nat, i: nat, id: OperatorId)
    requires LastToBear(b, k, i, id)
    ensures ShowsStatus(ExecAll(t, Program(b)), b.events[i], id)
  {
    LastToBearDecides(t, b, k, i, id);
    EventShowsStatus(Before(t, b, k, i), b, k, i, id);
    StatusCarries(AfterEvent(t, b, k, i), ExecAll(t, Program(b)), b.events[i], id);
  }

  /** And when it is a registration: the row shows the operator as it was read. */
  lemma {:induction false} RegistrationAfterBlock(t: Tables, b: Block, i: nat, id: OperatorId)
    requires LastToBear(b, 0, i, id)
    ensures id in ExecAll(t, Program(b)).operators
    ensures ShowsStats(ExecAll(t, Program(b)).operators[id], b.events[i].operator.value)
  {
    assert LOOPS[0] == Registrations;
    LastToBearDecides(t, b, 0, i, id);
    RegistrationColumns(Before(t, b, 0, i), b, i);
  }

  /** The entry is the last readable one of its operator in the event. */
  ghost predicate LastEntry(event: Event, j: nat) {
    && event.DomainEpochCompleted? && j < |event.operators| && Read(event.operators[j])
    && (forall m | j < m < |event.operators| && Read(event.operators[m]) ::
          event.operators[m].operatorId != event.operators[j].operatorId)
  }

  lemma {:induction false} EpochIsThree(b: Block, i: nat, j: nat)
    requires i < |b.events| && LastEntry(b.events[i], j)
    ensures StmtsOf(b, Epochs, i)
            == EpochStmts(b, b.events[i], j)
               + (OperatorStmts(b, b.events[i], j) + EpochFrom(b, b.events[i], j + 1))
  {
    EpochSplits(b, b.events[i], j);
  }

  /** The price and the stats are those of the entry. */
  ghost predicate ShowsEntry(t: Tables, b: Block, event: Event, operator: EpochOperator)
    requires event.DomainEpochCompleted? && Read(operator)
  {
    && ShowsPrice(t, b, event, operator)
    && (operator.operatorId in t.operators ==> ShowsStats(t.operators[operator.operatorId], operator.operator.value))
  }

  /** A completed epoch leaves the price and the stats of each operator's last readable entry. */
  lemma {:induction false} EpochColumns(t: Tables, b: Block, i: nat, j: nat)
    requires i < |b.events| && LastEntry(b.events[i], j)
    ensures ShowsEntry(ExecAll(t, StmtsOf(b, Epochs, i)), b, b.events[i], b.events[i].operators[j])
  {
    var event := b.events[i];
    var id := event.operators[j].operatorId;
    var key := SharePriceKey(id, event.domainId, event.epochIndex);
    var earlier, own, later := EpochStmts(b, event, j), OperatorStmts(b, event, j), EpochFrom(b, event, j + 1);
    EpochIsThree(b, i, j);
    ExecThree(t, earlier, own, later);
    OperatorEffect(ExecAll(t, earlier), b, event, j);
    var shown := ExecAll(ExecAll(t, earlier), own);
    EpochFromLeaves(b, event, j + 1, id, key);
    StatsStay(shown, later, id);
    PriceStays(shown, later, key);
  }

  /** No event from the `i`-th on in the `k`-th loop, nor any in a later loop, prices this row. */
  ghost predicate NonePricesFrom(b: Block, k: nat, i: nat, key: SharePriceKey) {
    forall m, j | 0 <= m < |LOOPS| && 0 <= j < |b.events| && (k < m || (k == m && i <= j)) ::
      !(LOOPS[m].Epochs? && Prices(b.events[j], key))
  }

  lemma {:induction false} LaterLeavesPrice(b: Block, k: nat, i: nat, key: SharePriceKey)
    requires k < |LOOPS| && i <= |b.events| && NonePricesFrom(b, k, i, key)
    ensures LeavesPrice(Later(b, k, i), key)
  {
    forall stmt | stmt in Later(b, k, i)
      ensures !(stmt.UpsertSharePrice? && stmt.priceKey == key)
    {
      var m, j := InLater(b, k, i, stmt);
      EventLeaves(b, LOOPS[m], j, key.operatorId, key);
    }
  }

  ghost predicate SamePrice(t: Tables, after: Tables, key: SharePriceKey) {
    && (key in after.sharePrices <==> key in t.sharePrices)
    && (key in t.sharePrices ==> after.sharePrices[key] == t.sharePrices[key])
  }

  lemma RestKeepsPrice(
    t: Tables, earlier: seq<Stmt>, own: seq<Stmt>, later: seq<Stmt>, all: seq<Stmt>, key: SharePriceKey)
    requires all == earlier + (own + later) && LeavesPrice(later, key)
    ensures SamePrice(ExecAll(ExecAll(t, earlier), own), ExecAll(t, all), key)
  {
    ExecThree(t, earlier, own, later);
    PriceStays(ExecAll(ExecAll(t, earlier), own), later, key);
  }

  lemma {:induction false} LastPriceDecides(t: Tables, b: Block, k: nat, i: nat, key: SharePriceKey)
    requires k < |LOOPS| && i < |b.events| && NonePricesFrom(b, k, i + 1, key)
    ensures SamePrice(AfterEvent(t, b, k, i), ExecAll(t, Program(b)), key)
  {
    hide StmtsOf, ExecAll;
    BlockSplits(b, k, i);
    LaterLeavesPrice(b, k, i + 1, key);
    RestKeepsPrice(t, Earlier(b, k, i), StmtsOf(b, LOOPS[k], i), Later(b, k, i + 1), Program(b), key);
  }

  lemma EntryCarries(so: Tables, after: Tables, b: Block, event: Event, operator: EpochOperator)
    requires event.DomainEpochCompleted? && Read(operator) && ShowsEntry(so, b, event, operator)
    requires SameStats(so, after, operator.operatorId)
    requires SamePrice(so, after, SharePriceKey(operator.operatorId, event.domainId, event.epochIndex))
    ensures ShowsEntry(after, b, event, operator)
  {
  }

  lemma {:induction false} NoLaterPrice(b: Block, k: nat, i: nat, key: SharePriceKey)
    requires NoneBearsFrom(b, k, i, key.operatorId)
    ensures NonePricesFrom(b, k, i, key)
  {
    forall m, j | 0 <= m < |LOOPS| && 0 <= j < |b.events| && (k < m || (k == m && i <= j))
      ensures !(LOOPS[m].Epochs? && Prices(b.events[j], key))
    {
      assert !Bears(LOOPS[m], b.events[j], key.operatorId);
    }
  }

  /**
   After the block, the row of an operator whose last epoch entry is this one shows the entry's price, and
   its stats are those that were read there.
   */
  lemma {:induction false} EpochAfterBlock(t: Tables, b: Block, i: nat, j: nat)
    requires i < |b.events| && LastEntry(b.events[i], j)
    requires NoneBearsFrom(b, 9, i + 1, b.events[i].operators[j].operatorId)
    ensures ShowsEntry(ExecAll(t, Program(b)), b, b.events[i], b.events[i].operators[j])
  {
    var event, operator := b.events[i], b.events[i].operators[j];
    var key := SharePriceKey(operator.operatorId, event.domainId, event.epochIndex);
    EpochColumns(Before(t, b, 9, i), b, i, j);
    LastToBearDecides(t, b, 9, i, operator.operatorId);
    NoLaterPrice(b, 9, i + 1, key);
    LastPriceDecides(t, b, 9, i, key);
    EntryCarries(AfterEvent(t, b, 9, i), ExecAll(t, Program(b)), b, event, operator);
  }

  /** A block in which nothing bears on an operator leaves its stats alone. */
  lemma {:induction false} UntouchedAfterBlock(t: Tables, b: Block, id: OperatorId)
    requires NoneBearsFrom(b, 0, 0, id)
    ensures SameStats(t, ExecAll(t, Program(b)), id)
  {
    ProgramIsBoth(b, 0, 0);
    LaterLeavesStats(b, 0, 0, id);
    ExecAllAppend(t, Earlier(b, 0, 0), Later(b, 0, 0));
    StatsStay(t, Earlier(b, 0, 0), id);
    StatsStay(ExecAll(t, Earlier(b, 0, 0)), Later(b, 0, 0), id);
  }

  /** A new operator's other columns are those of its first registration that could be read. */
  lemma {:induction false} IdentityAfterBlock(t: Tables, b: Block, i: nat, id: OperatorId)
    requires i < |b.events| && Bears(Registrations, b.events[i], id) && id !in t.operators
    requires forall j | 0 <= j < i :: !Bears(Registrations, b.events[j], id)
    ensures id in ExecAll(t, Program(b)).operators
    ensures ShowsIdentity(
              ExecAll(t, Program(b)).operators[id], b.events[i].operator.value, b.events[i].owner.value)
  {
    assert LOOPS[0] == Registrations;
    NothingBefore(t, b, i, id);
    RegistrationColumns(Before(t, b, 0, i), b, i);
    BlockIsRest(t, b, 0, i);
    FirstInsertFixesIdentity(AfterEvent(t, b, 0, i), Later(b, 0, i + 1), id);
  }

  lemma {:induction false} NothingBefore(t: Tables, b: Block, i: nat, id: OperatorId)
    requires i < |b.events| && id !in t.operators
    requires forall j | 0 <= j < i :: !Bears(LOOPS[0], b.events[j], id)
    ensures id !in Before(t, b, 0, i).operators
  {
    forall stmt | stmt in Gather(b, LOOPS[0], i)
      ensures !WritesStats(stmt, id)
    {
      var j := InGather(b, 0, i, stmt);
      EventLeaves(b, LOOPS[0], j, id, SharePriceKey(id, 0, 0));
    }
    StatsStay(t, Earlier(b, 0, i), id);
  }
}
