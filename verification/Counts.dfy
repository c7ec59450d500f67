/** The materialised nominator count of an operator, under any interleaving of statements. */
module Counts {
  import opened Outcomes
  import opened Schedules
  import opened Tables

  predicate CountIsRight(t: Tables, id: OperatorId) {
    id in t.operators ==> t.operators[id].nominatorCount == ActiveCount(t.nominators, id)
  }

  /** The tables a trace leads to from others, such as those that earlier blocks have left. */
  function TablesFrom(t: Tables, trace: seq<Ran<Stmt>>): Tables {
    if trace == [] then t
    else
      var before, last := TablesFrom(t, trace[..|trace| - 1]), trace[|trace| - 1];
      if last.index < |last.program| then Exec(before, last.program[last.index]) else before
  }

  lemma {:induction false} FromEmpty(trace: seq<Ran<Stmt>>)
    ensures TablesFrom(EMPTY, trace) == TablesAfter(trace)
  {
    if trace != [] {
      FromEmpty(trace[..|trace| - 1]);
    }
  }

  /** The last statement that bears on the operator's count: does it leave the count to be recomputed? */
  function Owes(stmts: seq<Stmt>, id: OperatorId): Option<bool> {
    if stmts == [] then None
    else if Unsettles(stmts[|stmts| - 1], id) then Some(true)
    else if stmts[|stmts| - 1] == RecountNominators(id) then Some(false)
    else Owes(stmts[..|stmts| - 1], id)
  }

  /** Of all statements executed for a height, by whichever attempt, the last that bears on the count unsettled it. */
  function Owed(trace: seq<Ran<Stmt>>, n: nat, id: OperatorId): bool {
    if trace == [] then false
    else
      var init, last := trace[..|trace| - 1], trace[|trace| - 1];
      if last.block != n || last.index >= |last.program| then Owed(init, n, id)
      else if Unsettles(last.program[last.index], id) then true
      else if last.program[last.index] == RecountNominators(id) then false
      else Owed(init, n, id)
  }

  ghost predicate SomeoneOwes(trace: seq<Ran<Stmt>>, id: OperatorId) {
    exists n: nat :: Owed(trace, n, id)
  }

  lemma ActiveCountElsewhere(
    nominators: map<NominatorKey, NominatorRow>, key: NominatorKey, row: NominatorRow, id: OperatorId)
    requires key.operatorId != id
    ensures ActiveCount(Upserted(nominators, key, row), id) == ActiveCount(nominators, id)
  {
    var after := Upserted(nominators, key, row);
    assert (set k | k in after && k.operatorId == id && after[k].status == Active)
        == (set k | k in nominators && k.operatorId == id && nominators[k].status == Active);
  }

  /**
   An upsert that takes effect changes its operator's number of active nominators by one when the row
   becomes active, or ceases to be, and by nothing otherwise. An empty table has none.
   */
  lemma {:induction false} UpsertCounts(
    nominators: map<NominatorKey, NominatorRow>, key: NominatorKey, row: NominatorRow)
    requires key in nominators ==> nominators[key].height <= row.height
    ensures var before := ActiveCount(nominators, key.operatorId);
            var after := ActiveCount(Upserted(nominators, key, row), key.operatorId);
            if key in nominators && nominators[key].status == Active
            then after == before - if row.status == Withdrawn then 1 else 0
            else after == before + if row.status == Active then 1 else 0
    ensures ActiveCount(map[], key.operatorId) == 0
  {
    var after, id := Upserted(nominators, key, row), key.operatorId;
    var active := set k | k in nominators && k.operatorId == id && nominators[k].status == Active;
    UpsertedActive(nominators, key, row, active);
    NoNominators(id);
  }

  lemma {:induction false} UpsertedActive(
    nominators: map<NominatorKey, NominatorRow>, key: NominatorKey, row: NominatorRow, active: set<NominatorKey>)
    requires key in nominators ==> nominators[key].height <= row.height
    requires active == set k | k in nominators && k.operatorId == key.operatorId && nominators[k].status == Active
    ensures ActiveCount(Upserted(nominators, key, row), key.operatorId)
            == if row.status == Active then |active + {key}| else |active - {key}|
  {
    var after := Upserted(nominators, key, row);
    var newer := set k | k in after && k.operatorId == key.operatorId && after[k].status == Active;
    assert newer == if row.status == Active then active + {key} else active - {key};
  }

  lemma NoNominators(id: OperatorId)
    ensures ActiveCount(map[], id) == 0
  {
    var none: map<NominatorKey, NominatorRow> := map[];
    assert (set k | k in none && k.operatorId == id && none[k].status == Active) == {};
  }

  /** A statement that does not unsettle the operator keeps its count right; a recount makes it right. */
  lemma {:induction false} CountStep(t: Tables, stmt: Stmt, id: OperatorId)
    requires !Unsettles(stmt, id)
    requires CountIsRight(t, id) || stmt == RecountNominators(id)
    ensures CountIsRight(Exec(t, stmt), id)
  {
    if stmt.UpsertNominator? {
      ActiveCountElsewhere(t.nominators, stmt.key, NominatorRow(stmt.status, stmt.height), id);
    }
  }

  /**
   After any statements in any order an operator's count is right if it was at the start, or some height
   still owes its recount; also when nominators were written before their operator row.
   */
  lemma {:induction false} CountRightOrOwed(t: Tables, trace: seq<Ran<Stmt>>, id: OperatorId)
    requires CountIsRight(t, id)
    ensures CountIsRight(TablesFrom(t, trace), id) || SomeoneOwes(trace, id)
  {
    if trace != [] {
      var init, last := trace[..|trace| - 1], trace[|trace| - 1];
      CountRightOrOwed(t, init, id);
      if last.index >= |last.program| {
        if n: nat :| Owed(init, n, id) {
          assert Owed(trace, n, id);
        }
      } else if Unsettles(last.program[last.index], id) {
        assert Owed(trace, last.block, id);
      } else if CountIsRight(TablesFrom(t, init), id) || last.program[last.index] == RecountNominators(id) {
        CountStep(TablesFrom(t, init), last.program[last.index], id);
      } else {
        var n: nat :| Owed(init, n, id);
        assert Owed(trace, n, id);
      }
    }
  }

  lemma OwesOneMore(stmts: seq<Stmt>, stmt: Stmt, id: OperatorId)
    ensures Owes(stmts + [stmt], id)
            == if Unsettles(stmt, id) then Some(true)
               else if stmt == RecountNominators(id) then Some(false)
               else Owes(stmts, id)
  {
    assert (stmts + [stmt])[..|stmts|] == stmts;
  }

  /** Once the latest attempt has executed a statement that bears on the count, earlier attempts no longer matter. */
  lemma {:induction false} LatestAttemptOwes(trace: seq<Ran<Stmt>>, n: nat, id: OperatorId)
    requires IsSchedule(trace)
    ensures Owes(Executed(trace, n), id).Some? ==> Owed(trace, n, id) == Owes(Executed(trace, n), id).value
  {
    if trace != [] {
      var init, last := trace[..|trace| - 1], trace[|trace| - 1];
      LatestAttemptOwes(init, n, id);
      ExecutedStep(trace, n);
      OwesOneMore(Executed(init, n), last.program[last.index], id);
      OwesOneMore([], last.program[0], id);
      assert [] + [last.program[0]] == [last.program[0]];
    }
  }

  /** A debt comes from an executed statement. */
  lemma {:induction false} DebtWasRun(trace: seq<Ran<Stmt>>, n: nat, id: OperatorId) returns (ran: Ran<Stmt>)
    requires Owed(trace, n, id)
    ensures ran in trace && ran.block == n && ran.index < |ran.program| && Unsettles(ran.program[ran.index], id)
  {
    var init, last := trace[..|trace| - 1], trace[|trace| - 1];
    assert trace == init + [last];
    ran := last;
    if !(last.block == n && last.index < |last.program| && Unsettles(last.program[last.index], id)) {
      ran := DebtWasRun(init, n, id);
    }
  }

  lemma {:induction false} LastBearing(stmts: seq<Stmt>, id: OperatorId, i: nat)
    requires i < |stmts| && stmts[i] == RecountNominators(id)
    requires forall k | i < k < |stmts| :: !Unsettles(stmts[k], id)
    ensures Owes(stmts, id) == Some(false)
  {
    if i < |stmts| - 1 && stmts[|stmts| - 1] != RecountNominators(id) {
      LastBearing(stmts[..|stmts| - 1], id, i);
    }
  }

  /** A block's statements that recount an operator at all do so after everything that unsettles it. */
  lemma {:induction false} RecountIsLast(program: seq<Stmt>, id: OperatorId, i: nat)
    requires Recounted(program) && i < |program| && program[i] == RecountNominators(id)
    ensures Owes(program, id) == Some(false)
    decreases |program| - i
  {
    if k :| i < k < |program| && Unsettles(program[k], id) {
      assert RecountsAfter(program, k + 1, id);
      var j :| k + 1 <= j < |program| && program[j] == RecountNominators(id);
      RecountIsLast(program, id, j);
    } else {
      LastBearing(program, id, i);
    }
  }

  predicate Recounts(program: seq<Stmt>, id: OperatorId) {
    RecountNominators(id) in program
  }

  /** Whatever any attempt has unsettled, its height's latest attempt recounts. */
  ghost predicate Repays(trace: seq<Ran<Stmt>>, id: OperatorId) {
    forall ran | ran in trace && ran.index < |ran.program| && Unsettles(ran.program[ran.index], id) ::
      Recounts(Attempted(trace, ran.block), id)
  }

  /**
   Once every started height has been completed, counts that were right at the start are right again, if
   the completing attempts recount what abandoned ones have unsettled.
   */
  lemma {:induction false} CountsRightWhenComplete(t: Tables, trace: seq<Ran<Stmt>>, id: OperatorId)
    requires IsSchedule(trace) && RunsBlockPrograms(trace) && AllComplete(trace) && Repays(trace, id)
    requires CountIsRight(t, id)
    ensures CountIsRight(TablesFrom(t, trace), id)
  {
    CountRightOrOwed(t, trace, id);
    if n: nat :| Owed(trace, n, id) {
      var ran := DebtWasRun(trace, n, id);
      RunWasStarted(trace, ran);
      LatestWasRun(trace, n);
      RanBlockProgram(trace, Latest(trace, n).value);
      var program := Attempted(trace, n);
      var i :| 0 <= i < |program| && program[i] == RecountNominators(id);
      RecountIsLast(program, id, i);
      assert Complete(trace, n);
      LatestAttemptOwes(trace, n, id);
    }
  }
}
