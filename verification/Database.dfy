/** The database: its tables as fields, and the calls the processors make on it. */
module Database {
  import opened Chain
  import opened Outcomes
  import opened Tables
  import Xdm
  import XdmRows

  class Db {
    var metadata: map<string, nat>
    var deposits: seq<Row<Deposit>>
    var withdrawals: seq<Row<Withdrawal>>
    var nominators: map<NominatorKey, NominatorRow>
    var operators: map<OperatorId, OperatorRow>
    var sharePrices: map<SharePriceKey, SharePrice>
    var xdmTransfers: Xdm.Table

    /** The staking tables as one value. */
    function Staking(): Tables
      reads this
    {
      Tables(deposits, withdrawals, nominators, operators, sharePrices)
    }

    constructor ()
      ensures Staking() == EMPTY && metadata == map[] && xdmTransfers == map[]
    {
      metadata := map[];
      deposits, withdrawals := [], [];
      nominators, operators, sharePrices := map[], map[], map[];
      xdmTransfers := map[];
    }

    method SetLastProcessedBlock(process: string, number: nat)
      modifies this`metadata
      ensures metadata == old(metadata)[process := number]
    {
      metadata := metadata[process := number];
    }

    /** `None` stands for the error of a missing row. */
    method GetLastProcessedBlock(process: string) returns (number: Option<nat>)
      ensures number == if process in metadata then Some(metadata[process]) else None
    {
      number := if process in metadata then Some(metadata[process]) else None;
    }

    method DeleteDepositsForBlock(height: nat)
      modifies this`deposits
      ensures Staking() == Exec(old(Staking()), DeleteDeposits(height))
    {
      deposits := Without(deposits, height);
    }

    method DeleteWithdrawalsForBlock(height: nat)
      modifies this`withdrawals
      ensures Staking() == Exec(old(Staking()), DeleteWithdrawals(height))
    {
      withdrawals := Without(withdrawals, height);
    }

    method InsertDeposit(
      operatorId: OperatorId, address: Address, amount: nat, storageFee: nat, height: nat, time: nat)
      modifies this`deposits
      ensures Staking() == Exec(old(Staking()),
                                Stmt.InsertDeposit(Row(height, Deposit(operatorId, address, amount, storageFee, time))))
    {
      deposits := deposits + [Row(height, Deposit(operatorId, address, amount, storageFee, time))];
    }

    method InsertWithdrawal(row: Row<Withdrawal>)
      modifies this`withdrawals
      ensures Staking() == Exec(old(Staking()), Stmt.InsertWithdrawal(row))
    {
      withdrawals := withdrawals + [row];
    }

    /** The guarded upsert: a row of a greater height is kept. */
    method UpsertNominatorRow(key: NominatorKey, status: NominatorStatus, height: nat)
      modifies this`nominators
      ensures Staking() == Exec(old(Staking()), Stmt.UpsertNominator(key, status, height))
      ensures nominators == if key in old(nominators) && height < old(nominators)[key].height then old(nominators)
                            else old(nominators)[key := NominatorRow(status, height)]
    {
      if key !in nominators || nominators[key].height <= height {
        nominators := nominators[key := NominatorRow(status, height)];
      }
    }

    /** Stores the number of the operator's active nominators in its row, if it has one. */
    method RecountNominators(operatorId: OperatorId)
      modifies this`operators
      ensures Staking() == Exec(old(Staking()), Stmt.RecountNominators(operatorId))
      ensures operators.Keys == old(operators).Keys
      ensures forall id | id in operators ::
                operators[id] == old(operators)[id].(nominatorCount := operators[id].nominatorCount)
      ensures forall id | id in operators && id != operatorId :: operators[id] == old(operators)[id]
      ensures operatorId in operators ==>
                forall listing | ListsActive(listing, nominators, operatorId) ::
                  operators[operatorId].nominatorCount == |listing|
    {
      forall listing | ListsActive(listing, nominators, operatorId)
        ensures ActiveCount(nominators, operatorId) == |listing|
      {
        CountIsLength(listing, nominators, operatorId);
      }
      if operatorId in operators {
        var active := set k | k in nominators && k.operatorId == operatorId && nominators[k].status == Active;
        operators := operators[operatorId := operators[operatorId].(nominatorCount := |active|)];
      }
    }

    /** Two statements: the guarded upsert, then the recount of the operator's active nominators. */
    method UpsertNominator(operatorId: OperatorId, address: Address, status: NominatorStatus, height: nat)
      modifies this`nominators, this`operators
      ensures Staking() == Exec(Exec(old(Staking()),
                                     Stmt.UpsertNominator(NominatorKey(operatorId, address), status, height)),
                                Stmt.RecountNominators(operatorId))
      ensures var key := NominatorKey(operatorId, address);
              nominators == if key in old(nominators) && height < old(nominators)[key].height then old(nominators)
                            else old(nominators)[key := NominatorRow(status, height)]
      ensures operatorId in operators <==> operatorId in old(operators)
      ensures operatorId in operators ==>
                forall listing | ListsActive(listing, nominators, operatorId) ::
                  operators[operatorId].nominatorCount == |listing|
    {
      UpsertNominatorRow(NominatorKey(operatorId, address), status, height);
      RecountNominators(operatorId);
    }

    method UpsertOperator(operatorId: OperatorId, identity: OperatorIdentity, stats: OperatorStats)
      modifies this`operators
      ensures Staking() == Exec(old(Staking()), Stmt.UpsertOperator(operatorId, identity, stats))
    {
      if operatorId in operators {
        operators := operators[operatorId := operators[operatorId].(stats := stats)];
      } else {
        operators := operators[operatorId := OperatorRow(identity, stats, 0)];
      }
    }

    method UpdateOperatorStatus(operatorId: OperatorId, status: OperatorStatus)
      modifies this`operators
      ensures Staking() == Exec(old(Staking()), Stmt.UpdateOperatorStatus(operatorId, status))
    {
      if operatorId in operators {
        var row := operators[operatorId];
        operators := operators[operatorId := row.(stats := row.stats.(status := status))];
      }
    }

    method UpdateOperatorStats(operatorId: OperatorId, stats: OperatorStats)
      modifies this`operators
      ensures Staking() == Exec(old(Staking()), Stmt.UpdateOperatorStats(operatorId, stats))
    {
      if operatorId in operators {
        operators := operators[operatorId := operators[operatorId].(stats := stats)];
      }
    }

    method UpsertEpochSharePrice(key: SharePriceKey, price: SharePrice)
      modifies this`sharePrices
      ensures Staking() == Exec(old(Staking()), UpsertSharePrice(key, price))
    {
      sharePrices := sharePrices[key := price];
    }

    /** One statement, as the block processors issue it. */
    method Execute(stmt: Stmt)
      modifies this`deposits, this`withdrawals, this`nominators, this`operators, this`sharePrices
      ensures Staking() == Exec(old(Staking()), stmt)
    {
      match stmt
      case DeleteDeposits(height) => DeleteDepositsForBlock(height);
      case DeleteWithdrawals(height) => DeleteWithdrawalsForBlock(height);
      case InsertDeposit(row) =>
        InsertDeposit(row.data.operatorId, row.data.address, row.data.amount, row.data.storageFee, row.height,
                      row.data.time);
      case InsertWithdrawal(row) => InsertWithdrawal(row);
      case UpsertNominator(key, status, height) => UpsertNominatorRow(key, status, height);
      case RecountNominators(id) => RecountNominators(id);
      case UpsertOperator(id, identity, stats) => UpsertOperator(id, identity, stats);
      case UpdateOperatorStatus(id, status) => UpdateOperatorStatus(id, status);
      case UpdateOperatorStats(id, stats) => UpdateOperatorStats(id, stats);
      case UpsertSharePrice(key, price) => UpsertEpochSharePrice(key, price);
    }

    /** The upsert the three event writers share: set these columns, keep the others. */
    method UpsertTransfer(key: Xdm.Key, fields: Xdm.Fields)
      modifies this`xdmTransfers
      ensures xdmTransfers == old(xdmTransfers)[key := Xdm.RowOr(old(xdmTransfers), key) + fields]
    {
      if key in xdmTransfers {
        xdmTransfers := xdmTransfers[key := xdmTransfers[key] + fields];
      } else {
        assert map[] + fields == fields;
        xdmTransfers := xdmTransfers[key := fields];
      }
    }

    /** The shared end of a failed and a successful outgoing transfer. */
    method StoreAcknowledgement(
      block: HashAndNumber, src: Xdm.ChainId, dst: Xdm.ChainId, time: nat, id: Xdm.MessageId, successful: bool)
      modifies this`xdmTransfers
      ensures var key, fields := Xdm.KeyFor(src, dst, id), map[
                Xdm.AcknowledgedBlockNumber := Xdm.Number(block.number),
                Xdm.AcknowledgedBlockHash := Xdm.Number(block.hash),
                Xdm.AcknowledgedAt := Xdm.Number(time), Xdm.TransferSuccessful := Xdm.Flag(successful)];
              xdmTransfers == old(xdmTransfers)[key := Xdm.RowOr(old(xdmTransfers), key) + fields]
    {
      UpsertTransfer(
        Xdm.KeyFor(src, dst, id),
        map[Xdm.AcknowledgedBlockNumber := Xdm.Number(block.number),
            Xdm.AcknowledgedBlockHash := Xdm.Number(block.hash),
            Xdm.AcknowledgedAt := Xdm.Number(time), Xdm.TransferSuccessful := Xdm.Flag(successful)]);
    }

    /** The statement of the event's kind: the transfer's row shows the event in that event's columns. */
    method StoreEvent(stored: Xdm.Stored)
      modifies this`xdmTransfers
      ensures xdmTransfers == Xdm.Store(old(xdmTransfers), stored)
      ensures Xdm.KeyOf(stored) in xdmTransfers
      ensures XdmRows.ShowsEvent(xdmTransfers[Xdm.KeyOf(stored)], stored)
    {
      var block := stored.block;
      match stored.event {
        case OutgoingTransferInitiated(id, transfer) =>
          UpsertTransfer(
            Xdm.KeyFor(transfer.sender.chainId, transfer.receiver.chainId, id),
            map[Xdm.Sender := Xdm.Number(transfer.sender.account),
                Xdm.Receiver := Xdm.Number(transfer.receiver.account), Xdm.Amount := Xdm.Number(transfer.amount),
                Xdm.InitiatedBlockNumber := Xdm.Number(block.number),
                Xdm.InitiatedBlockHash := Xdm.Number(block.hash), Xdm.InitiatedAt := Xdm.Number(stored.time)]);
        case OutgoingTransferFailed(chainId, id) =>
          StoreAcknowledgement(block, stored.chain, chainId, stored.time, id, false);
        case OutgoingTransferSuccessful(chainId, id) =>
          StoreAcknowledgement(block, stored.chain, chainId, stored.time, id, true);
        case IncomingTransferSuccessful(chainId, id, amount) =>
          UpsertTransfer(
            Xdm.KeyFor(chainId, stored.chain, id),
            map[Xdm.Amount := Xdm.Number(amount), Xdm.ExecutedBlockNumber := Xdm.Number(block.number),
                Xdm.ExecutedBlockHash := Xdm.Number(block.hash), Xdm.ExecutedAt := Xdm.Number(stored.time),
                Xdm.TransferSuccessful := Xdm.Flag(true)]);
      }
      XdmRows.StoringShows(old(xdmTransfers), stored);
    }

    /** Stores a block's events in order. */
    method StoreEvents(chain: Xdm.ChainId, block: HashAndNumber, time: nat, events: seq<Xdm.Event>)
      modifies this`xdmTransfers
      ensures xdmTransfers == Xdm.StoreAll(old(xdmTransfers), StoredBy(chain, block, time, events))
    {
      for i := 0 to |events|
        invariant xdmTransfers == Xdm.StoreAll(old(xdmTransfers), StoredBy(chain, block, time, events[..i]))
      {
        assert events[..i + 1][..i] == events[..i];
        ghost var before := StoredBy(chain, block, time, events[..i]);
        var stored := Xdm.Stored(chain, block, time, events[i]);
        assert (before + [stored])[..|before|] == before;
        StoreEvent(stored);
      }
      assert events[..|events|] == events;
    }
  }

  /** The events as the chain's processor stores them, in order. */
  function StoredBy(chain: Xdm.ChainId, block: HashAndNumber, time: nat, events: seq<Xdm.Event>)
    : (stored: seq<Xdm.Stored>)
    ensures |stored| == |events|
    ensures forall i | 0 <= i < |events| :: stored[i] == Xdm.Stored(chain, block, time, events[i])
  {
    if events == [] then []
    else StoredBy(chain, block, time, events[..|events| - 1])
         + [Xdm.Stored(chain, block, time, events[|events| - 1])]
  }
}
