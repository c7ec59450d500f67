/** What an indexed block leaves in the nominators table. */
module NominatorRows {
  import opened BlockParts
  import opened Outcomes
  import opened Schedules
  import opened Staking
  import opened Tables

  /** In this loop the event writes the nominator's row. */
  predicate Touches(loop: Loop, event: Event, key: NominatorKey) {
    match loop
    case Registrations =>
      && event.OperatorRegistered? && event.operatorId == key.operatorId
      && event.operator.Some? && event.owner == Some(key.address)
    case Nominations => event.OperatorNominated? && event.operatorId == key.operatorId && event.nominator == key.address
    case Unlocks => event == NominatorUnlocked(key.operatorId, key.address)
    case StakedUnlocks =>
      event.NominatedStakedUnlocked? && event.operatorId == key.operatorId && event.nominator == key.address
    case _ => false
  }

  ghost predicate NoneTouchesFrom(b: Block, k: nat, i: nat, key: NominatorKey) {
    forall m, j | 0 <= m < |LOOPS| && 0 <= j < |b.events| && (k < m || (k == m && i <= j)) ::
      !Touches(LOOPS[m], b.events[j], key)
  }

  /** The `k`-th loop's event at index `i` is the last to write the nominator's row. */
  ghost predicate LastToTouch(b: Block, k: nat, i: nat, key: NominatorKey) {
    k < |LOOPS| && i < |b.events| && Touches(LOOPS[k], b.events[i], key) && NoneTouchesFrom(b, k, i + 1, key)
  }

  /** The row was written for this height, with the status that the event stands for. */
  ghost predicate ShowsNominator(t: Tables, event: Event, key: NominatorKey, height: nat) {
    && key in t.nominators
    && var row := t.nominators[key];
       && row.height == height
       && (event.OperatorRegistered? ==> row.status == Active)
       && (event.OperatorNominated? ==> row.status == Active)
       && (event.NominatorUnlocked? ==> row.status == Withdrawn)
       && (event.NominatedStakedUnlocked? ==>
             row.status == if event.hasDeposit == Some(false) then Withdrawn else Active)
  }

  ghost predicate SameNominator(t: Tables, after: Tables, key: NominatorKey) {
    && (key in t.nominators <==> key in after.nominators)
    && (key in t.nominators ==> t.nominators[key] == after.nominators[key])
  }

  predicate Newer(t: Tables, key: NominatorKey, height: nat) {
    key in t.nominators && height < t.nominators[key].height
  }

  predicate WritesNominator(stmt: Stmt, key: NominatorKey) {
    stmt.UpsertNominator? && stmt.key == key
  }

  ghost predicate LeavesNominator(stmts: seq<Stmt>, key: NominatorKey) {
    forall stmt | stmt in stmts :: !WritesNominator(stmt, key)
  }

  ghost predicate AllAtHeight(stmts: seq<Stmt>, height: nat) {
    forall stmt | stmt in stmts :: WritesAtHeight(stmt, height)
  }

  lemma {:induction false} NominatorStays(t: Tables, stmts: seq<Stmt>, key: NominatorKey)
    requires LeavesNominator(stmts, key)
    ensures SameNominator(t, ExecAll(t, stmts), key)
  {
    if stmts != [] {
      var init, last := stmts[..|stmts| - 1], stmts[|stmts| - 1];
      assert stmts == init + [last];
      NominatorStays(t, init, key);
      assert last in stmts;
    }
  }

  /** A newer row withstands the block's writes, and they make no row newer. */
  lemma {:induction false} NewerStays(t: Tables, stmts: seq<Stmt>, key: NominatorKey, height: nat)
    requires AllAtHeight(stmts, height)
    ensures Newer(t, key, height) ==> SameNominator(t, ExecAll(t, stmts), key)
    ensures Newer(ExecAll(t, stmts), key, height) ==> Newer(t, key, height)
  {
    if stmts != [] {
      var init, last := stmts[..|stmts| - 1], stmts[|stmts| - 1];
      assert stmts == init + [last];
      NewerStays(t, init, key, height);
      assert WritesAtHeight(last, height) by { assert last in stmts; }
    }
  }

  lemma {:induction false} NominatorEffect(
    t: Tables, height: nat, id: OperatorId, address: Address, status: NominatorStatus)
    requires !Newer(t, NominatorKey(id, address), height)
    ensures var key, after := NominatorKey(id, address), ExecAll(t, Nominator(height, id, address, status));
            key in after.nominators && after.nominators[key] == NominatorRow(status, height)
  {
    var upsert, recount := UpsertNominator(NominatorKey(id, address), status, height), RecountNominators(id);
    assert Nominator(height, id, address, status) == [upsert] + [recount];
    ExecAllAppend(t, [upsert], [recount]);
    ExecOne(t, upsert);
    ExecOne(Exec(t, upsert), recount);
  }

  /** The four kinds of event that write a nominator's row. */
  lemma {:induction false} EventShowsNominator(t: Tables, b: Block, loop: Loop, i: nat, key: NominatorKey)
    requires i < |b.events| && Touches(loop, b.events[i], key) && !Newer(t, key, b.height)
    ensures ShowsNominator(ExecAll(t, StmtsOf(b, loop, i)), b.events[i], key, b.height)
  {
    var event := b.events[i];
    match loop {
      case Registrations =>
        var upsert := UpsertOperator(
          event.operatorId, event.operator.value.Identity(event.owner.value), event.operator.value.Stats());
        ExecAllAppend(t, [upsert], Nominator(b.height, event.operatorId, event.owner.value, Active));
        ExecOne(t, upsert);
        NominatorEffect(Exec(t, upsert), b.height, event.operatorId, event.owner.value, Active);
      case Nominations =>
        var insert := InsertDeposit(DepositRow(b, i));
        var upserted := ExecAll(t, Nominator(b.height, event.operatorId, event.nominator, Active));
        ExecAllAppend(t, Nominator(b.height, event.operatorId, event.nominator, Active), [insert]);
        NominatorEffect(t, b.height, event.operatorId, event.nominator, Active);
        ExecOne(upserted, insert);
      case Unlocks => NominatorEffect(t, b.height, event.operatorId, event.nominator, Withdrawn);
      case StakedUnlocks =>
        NominatorEffect(t, b.height, event.operatorId, event.nominator,
                        if event.hasDeposit == Some(false) then Withdrawn else Active);
      case _ =>
    }
  }

  lemma {:induction false} EpochLeavesNominator(b: Block, event: Event, n: nat, key: NominatorKey)
    requires event.DomainEpochCompleted? && n <= |event.operators|
    ensures LeavesNominator(EpochStmts(b, event, n), key)
  {
    if n > 0 {
      EpochLeavesNominator(b, event, n - 1, key);
    }
  }

  lemma {:induction false} EventLeavesNominator(b: Block, loop: Loop, i: nat, key: NominatorKey)
    requires i < |b.events| && !Touches(loop, b.events[i], key)
    ensures LeavesNominator(StmtsOf(b, loop, i), key)
  {
    var event := b.events[i];
    if loop.Epochs? && event.DomainEpochCompleted? {
      EpochLeavesNominator(b, event, |event.operators|, key);
    }
  }

  lemma {:induction false} LaterLeavesNominator(b: Block, k: nat, i: nat, key: NominatorKey)
    requires k < |LOOPS| && i <= |b.events| && NoneTouchesFrom(b, k, i, key)
    ensures LeavesNominator(Later(b, k, i), key)
  {
    forall stmt | stmt in Later(b, k, i)
      ensures !WritesNominator(stmt, key)
    {
      var m, j := InLater(b, k, i, stmt);
      EventLeavesNominator(b, LOOPS[m], j, key);
    }
  }

  lemma {:induction false} BlockAtHeight(b: Block)
    ensures AllAtHeight(Program(b), b.height)
  {
    ProgramIsBlockProgram(b);
  }

  lemma PartAtHeight(part: seq<Stmt>, rest: seq<Stmt>, all: seq<Stmt>, height: nat)
    requires AllAtHeight(all, height) && all == part + rest
    ensures AllAtHeight(part, height)
  {
    forall stmt | stmt in part
      ensures WritesAtHeight(stmt, height)
    {
      assert stmt in all;
    }
  }

  /** A newer block's row is left alone. */
  lemma {:induction false} NewerRowAfterBlock(t: Tables, b: Block, key: NominatorKey)
    requires Newer(t, key, b.height)
    ensures SameNominator(t, ExecAll(t, Program(b)), key)
  {
    BlockAtHeight(b);
    NewerStays(t, Program(b), key, b.height);
  }

  lemma RestKeepsNominator(
    t: Tables, earlier: seq<Stmt>, own: seq<Stmt>, later: seq<Stmt>, all: seq<Stmt>, key: NominatorKey)
    requires all == earlier + (own + later) && LeavesNominator(later, key)
    ensures SameNominator(ExecAll(ExecAll(t, earlier), own), ExecAll(t, all), key)
  {
    ExecThree(t, earlier, own, later);
    NominatorStays(ExecAll(ExecAll(t, earlier), own), later, key);
  }

  lemma {:induction false} LastToTouchDecides(t: Tables, b: Block, k: nat, i: nat, key: NominatorKey)
    requires k < |LOOPS| && i < |b.events| && NoneTouchesFrom(b, k, i + 1, key)
    ensures SameNominator(AfterEvent(t, b, k, i), ExecAll(t, Program(b)), key)
  {
    hide StmtsOf, ExecAll;
    BlockSplits(b, k, i);
    LaterLeavesNominator(b, k, i + 1, key);
    RestKeepsNominator(t, Earlier(b, k, i), StmtsOf(b, LOOPS[k], i), Later(b, k, i + 1), Program(b), key);
  }

  lemma {:induction false} NotNewerBefore(t: Tables, b: Block, k: nat, i: nat, key: NominatorKey)
    requires k < |LOOPS| && i < |b.events| && !Newer(t, key, b.height)
    ensures !Newer(Before(t, b, k, i), key, b.height)
  {
    BlockAtHeight(b);
    BlockSplits(b, k, i);
    PartAtHeight(Earlier(b, k, i), StmtsOf(b, LOOPS[k], i) + Later(b, k, i + 1), Program(b), b.height);
    NewerStays(t, Earlier(b, k, i), key, b.height);
  }

  lemma NominatorCarries(so: Tables, after: Tables, event: Event, key: NominatorKey, height: nat)
    requires SameNominator(so, after, key) && ShowsNominator(so, event, key, height)
    ensures ShowsNominator(after, event, key, height)
  {
  }

  /**
   Unless a newer block wrote the row, a block leaves its own height and the status of the last event to
   write it, in the order of the loops: active for a registration's owner and a nomination, withdrawn for an
   unlock, and for a staked unlock withdrawn only if the deposit was read to be gone.
   */
  lemma {:induction false} NominatorAfterBlock(t: Tables, b: Block, k: nat, i: nat, key: NominatorKey)
    requires LastToTouch(b, k, i, key) && !Newer(t, key, b.height)
    ensures ShowsNominator(ExecAll(t, Program(b)), b.events[i], key, b.height)
  {
    NotNewerBefore(t, b, k, i, key);
    EventShowsNominator(Before(t, b, k, i), b, LOOPS[k], i, key);
    LastToTouchDecides(t, b, k, i, key);
    NominatorCarries(AfterEvent(t, b, k, i), ExecAll(t, Program(b)), b.events[i], key, b.height);
  }

  lemma {:induction false} StartTouchesNone(b: Block, key: NominatorKey)
    requires NoneTouchesFrom(b, 0, 0, key)
    ensures LeavesNominator(Program(b), key)
  {
    ProgramIsBoth(b, 0, 0);
    LaterLeavesNominator(b, 0, 0, key);
  }

  /** A nominator that no event writes keeps its row, or has none as before. */
  lemma {:induction false} UnnamedAfterBlock(t: Tables, b: Block, key: NominatorKey)
    requires NoneTouchesFrom(b, 0, 0, key)
    ensures SameNominator(t, ExecAll(t, Program(b)), key)
  {
    StartTouchesNone(b, key);
    NominatorStays(t, Program(b), key);
  }
}
