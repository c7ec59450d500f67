/**
 The staking tables and the SQL statements that change them. Every statement is one atomic step.

 Amounts are unbounded; accounts stand for their address text; the `updated_at` and timestamp
 columns are left out except for a row's block time.
 */
module Tables {

  type OperatorId = nat
  type Address = nat

  /** A row tagged with the block height it was written for. */
  datatype Row<+T> = Row(height: nat, data: T)

  datatype Deposit = Deposit(operatorId: OperatorId, address: Address, amount: nat, storageFee: nat, time: nat)

  datatype Withdrawal = Withdrawal(
    operatorId: OperatorId, address: Address, shares: nat, amount: nat, storageFeeRefund: nat, time: nat)

  datatype NominatorStatus = Active | Withdrawn

  datatype NominatorKey = NominatorKey(operatorId: OperatorId, address: Address)

  datatype NominatorRow = NominatorRow(status: NominatorStatus, height: nat)

  datatype OperatorStatus =
    Registered | Deregistered | Slashed | PendingSlash | InvalidBundle | Deactivated

  /** The columns an insert fixes for good. */
  datatype OperatorIdentity = OperatorIdentity(
    domainId: nat, ownerAccount: Address, signingKey: seq<nat>, minimumNominatorStake: nat, nominationTax: nat)

  /** The columns every upsert and stats update overwrites. */
  datatype OperatorStats = OperatorStats(
    status: OperatorStatus, totalStake: nat, totalShares: nat, totalStorageFeeDeposit: nat)

  datatype OperatorRow = OperatorRow(identity: OperatorIdentity, stats: OperatorStats, nominatorCount: nat)

  datatype SharePriceKey = SharePriceKey(operatorId: OperatorId, domainId: nat, epochIndex: nat)

  datatype SharePrice = SharePrice(sharePrice: nat, totalStake: nat, totalShares: nat, height: nat, time: nat)

  datatype Tables = Tables(
    deposits: seq<Row<Deposit>>,
    withdrawals: seq<Row<Withdrawal>>,
    nominators: map<NominatorKey, NominatorRow>,
    operators: map<OperatorId, OperatorRow>,
    sharePrices: map<SharePriceKey, SharePrice>)

  const EMPTY := Tables([], [], map[], map[], map[])

  datatype Stmt =
    | DeleteDeposits(height: nat)
    | DeleteWithdrawals(height: nat)
    | InsertDeposit(deposit: Row<Deposit>)
    | InsertWithdrawal(withdrawal: Row<Withdrawal>)
    | UpsertNominator(key: NominatorKey, status: NominatorStatus, height: nat)
    | RecountNominators(operatorId: OperatorId)
    | UpsertOperator(operatorId: OperatorId, identity: OperatorIdentity, stats: OperatorStats)
    | UpdateOperatorStatus(operatorId: OperatorId, operatorStatus: OperatorStatus)
    | UpdateOperatorStats(operatorId: OperatorId, stats: OperatorStats)
    | UpsertSharePrice(priceKey: SharePriceKey, price: SharePrice)

  /** `DELETE ... WHERE block_height = height`. */
  function Without<T>(rows: seq<Row<T>>, height: nat): seq<Row<T>> {
    if rows == [] then []
    else
      var init := Without(rows[..|rows| - 1], height);
      if rows[|rows| - 1].height == height then init else init + [rows[|rows| - 1]]
  }

  /** The rows of one height, in the order they were inserted. */
  function At<T>(rows: seq<Row<T>>, height: nat): seq<Row<T>> {
    if rows == [] then []
    else
      var init := At(rows[..|rows| - 1], height);
      if rows[|rows| - 1].height == height then init + [rows[|rows| - 1]] else init
  }

  /** The guarded upsert: the newer or equal height wins. */
  function Upserted(
    nominators: map<NominatorKey, NominatorRow>, key: NominatorKey, row: NominatorRow): map<NominatorKey, NominatorRow>
  {
    if key in nominators && row.height < nominators[key].height then nominators
    else nominators[key := row]
  }

  /** `SELECT COUNT(*) ... WHERE operator_id = $1 AND status = 'active'`. */
  function ActiveCount(nominators: map<NominatorKey, NominatorRow>, operatorId: OperatorId): nat {
    |set key | key in nominators && key.operatorId == operatorId && nominators[key].status == Active|
  }

  /** The addresses with an active row for the operator, each listed once. */
  ghost predicate ListsActive(
    listing: seq<Address>, nominators: map<NominatorKey, NominatorRow>, operatorId: OperatorId)
  {
    && (forall i, j | 0 <= i < j < |listing| :: listing[i] != listing[j])
    && (forall address :: address in listing <==>
          && NominatorKey(operatorId, address) in nominators
          && nominators[NominatorKey(operatorId, address)].status == Active)
  }

  function KeysOf(listing: seq<Address>, operatorId: OperatorId): set<NominatorKey> {
    set address | address in listing :: NominatorKey(operatorId, address)
  }

  lemma {:induction false} DistinctKeys(listing: seq<Address>, operatorId: OperatorId)
    requires forall i, j | 0 <= i < j < |listing| :: listing[i] != listing[j]
    ensures |KeysOf(listing, operatorId)| == |listing|
  {
    if listing != [] {
      var init, last := listing[..|listing| - 1], listing[|listing| - 1];
      assert listing == init + [last];
      DistinctKeys(init, operatorId);
      assert last !in init;
      assert KeysOf(listing, operatorId) == KeysOf(init, operatorId) + {NominatorKey(operatorId, last)};
    }
  }

  /** The count is the length of any listing of the operator's active nominators. */
  lemma {:induction false} CountIsLength(
    listing: seq<Address>, nominators: map<NominatorKey, NominatorRow>, operatorId: OperatorId)
    requires ListsActive(listing, nominators, operatorId)
    ensures ActiveCount(nominators, operatorId) == |listing|
  {
    DistinctKeys(listing, operatorId);
    var active := set key | key in nominators && key.operatorId == operatorId && nominators[key].status == Active;
    forall key | key in active
      ensures key in KeysOf(listing, operatorId)
    {
      assert key == NominatorKey(operatorId, key.address);
      assert key.address in listing;
    }
    assert active == KeysOf(listing, operatorId);
  }

  function Exec(t: Tables, stmt: Stmt): Tables {
    match stmt
    case DeleteDeposits(height) => t.(deposits := Without(t.deposits, height))
    case DeleteWithdrawals(height) => t.(withdrawals := Without(t.withdrawals, height))
    case InsertDeposit(row) => t.(deposits := t.deposits + [row])
    case InsertWithdrawal(row) => t.(withdrawals := t.withdrawals + [row])
    case UpsertNominator(key, status, height) =>
      t.(nominators := Upserted(t.nominators, key, NominatorRow(status, height)))
    case RecountNominators(id) =>
      if id !in t.operators then t
      else t.(operators := t.operators[id := t.operators[id].(nominatorCount := ActiveCount(t.nominators, id))])
    case UpsertOperator(id, identity, stats) =>
      var row := if id in t.operators then t.operators[id].(stats := stats) else OperatorRow(identity, stats, 0);
      t.(operators := t.operators[id := row])
    case UpdateOperatorStatus(id, status) =>
      if id !in t.operators then t
      else
        var row := t.operators[id];
        t.(operators := t.operators[id := row.(stats := row.stats.(status := status))])
    case UpdateOperatorStats(id, stats) =>
      if id !in t.operators then t
      else t.(operators := t.operators[id := t.operators[id].(stats := stats)])
    case UpsertSharePrice(key, price) => t.(sharePrices := t.sharePrices[key := price])
  }

  function ExecAll(t: Tables, stmts: seq<Stmt>): Tables {
    if stmts == [] then t else Exec(ExecAll(t, stmts[..|stmts| - 1]), stmts[|stmts| - 1])
  }

  lemma ExecOne(t: Tables, stmt: Stmt)
    ensures ExecAll(t, [stmt]) == Exec(t, stmt)
  {
    assert [stmt][..0] == [];
  }

  lemma {:induction false} ExecAllAppend(t: Tables, a: seq<Stmt>, b: seq<Stmt>)
    ensures ExecAll(t, a + b) == ExecAll(ExecAll(t, a), b)
    decreases |b|
  {
    if b == [] {
      assert a + b == a;
    } else {
      ExecAllAppend(t, a, b[..|b| - 1]);
      assert (a + b)[..|a + b| - 1] == a + b[..|b| - 1];
    }
  }

  /** A delete empties its own height and touches no other. */
  lemma {:induction false} DeleteAt<T>(rows: seq<Row<T>>, height: nat, n: nat)
    ensures At(Without(rows, height), n) == if n == height then [] else At(rows, n)
  {
    if rows != [] {
      var init, last := rows[..|rows| - 1], rows[|rows| - 1];
      DeleteAt(init, height, n);
      if last.height != height {
        InsertAt(Without(init, height), last, n);
      }
    }
  }

  lemma InsertAt<T>(rows: seq<Row<T>>, row: Row<T>, n: nat)
    ensures At(rows + [row], n) == if row.height == n then At(rows, n) + [row] else At(rows, n)
  {
    assert (rows + [row])[..|rows|] == rows;
  }

  /** The columns an operator's first insert fixes are never changed again, whatever is executed. */
  lemma {:induction false} FirstInsertFixesIdentity(t: Tables, stmts: seq<Stmt>, id: OperatorId)
    requires id in t.operators
    ensures id in ExecAll(t, stmts).operators
    ensures ExecAll(t, stmts).operators[id].identity == t.operators[id].identity
  {
    if stmts != [] {
      FirstInsertFixesIdentity(t, stmts[..|stmts| - 1], id);
    }
  }
}
