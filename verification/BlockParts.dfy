/** A block's statements cut at one event of one loop: what came before, its own, and what comes after. */
module BlockParts {
  import opened Staking
  import opened Tables

  /** The loops run in this order. */
  lemma LoopOrder()
    ensures |LOOPS| == 10
    ensures LOOPS[0] == Registrations && LOOPS[1] == Deregistrations && LOOPS[2] == Slashings
    ensures LOOPS[3] == Deactivations && LOOPS[4] == Reactivations && LOOPS[5] == Nominations
    ensures LOOPS[6] == Withdrawals && LOOPS[7] == Unlocks && LOOPS[8] == StakedUnlocks && LOOPS[9] == Epochs
  {
  }

  /** What a loop executes for the events from the `i`-th on. */
  function GatherFrom(b: Block, loop: Loop, i: nat): seq<Stmt>
    requires i <= |b.events|
    decreases |b.events| - i
  {
    if i == |b.events| then [] else StmtsOf(b, loop, i) + GatherFrom(b, loop, i + 1)
  }

  /** What the loops from the `k`-th on execute. */
  function ProgramFrom(b: Block, k: nat): seq<Stmt>
    requires k <= |LOOPS|
    decreases |LOOPS| - k
  {
    if k == |LOOPS| then [] else GatherFrom(b, LOOPS[k], 0) + ProgramFrom(b, k + 1)
  }

  /** The statements before the `k`-th loop handles the event at index `i`. */
  function Earlier(b: Block, k: nat, i: nat): seq<Stmt>
    requires k < |LOOPS| && i <= |b.events|
  {
    ProgramUpTo(b, k) + Gather(b, LOOPS[k], i)
  }

  /** The statements from the `k`-th loop's event at index `i` on. */
  function Later(b: Block, k: nat, i: nat): seq<Stmt>
    requires k < |LOOPS| && i <= |b.events|
  {
    GatherFrom(b, LOOPS[k], i) + ProgramFrom(b, k + 1)
  }

  lemma Joined(a: seq<Stmt>, b: seq<Stmt>, c: seq<Stmt>)
    ensures (a + b) + c == a + (b + c)
  {
  }

  lemma EmptyEnds(a: seq<Stmt>)
    ensures a + [] == a && [] + a == a
  {
  }

  lemma {:induction false} GatherSplits(b: Block, loop: Loop, i: nat)
    requires i <= |b.events|
    ensures Gather(b, loop, |b.events|) == Gather(b, loop, i) + GatherFrom(b, loop, i)
    decreases |b.events| - i
  {
    if i < |b.events| {
      GatherSplits(b, loop, i + 1);
      Joined(Gather(b, loop, i), StmtsOf(b, loop, i), GatherFrom(b, loop, i + 1));
    } else {
      EmptyEnds(Gather(b, loop, i));
    }
  }

  lemma {:induction false} ProgramSplits(b: Block, k: nat)
    requires k <= |LOOPS|
    ensures Program(b) == ProgramUpTo(b, k) + ProgramFrom(b, k)
    decreases |LOOPS| - k
  {
    if k < |LOOPS| {
      ProgramSplits(b, k + 1);
      GatherSplits(b, LOOPS[k], 0);
      EmptyEnds(GatherFrom(b, LOOPS[k], 0));
      Joined(ProgramUpTo(b, k), GatherFrom(b, LOOPS[k], 0), ProgramFrom(b, k + 1));
    } else {
      EmptyEnds(ProgramUpTo(b, k));
    }
  }

  lemma {:induction false} ProgramIsBoth(b: Block, k: nat, i: nat)
    requires k < |LOOPS| && i <= |b.events|
    ensures Program(b) == Earlier(b, k, i) + Later(b, k, i)
  {
    ProgramSplits(b, k + 1);
    GatherSplits(b, LOOPS[k], i);
    Regroup(ProgramUpTo(b, k), Gather(b, LOOPS[k], i), GatherFrom(b, LOOPS[k], i), ProgramFrom(b, k + 1));
  }

  lemma Regroup(a: seq<Stmt>, b: seq<Stmt>, c: seq<Stmt>, d: seq<Stmt>)
    ensures (a + (b + c)) + d == (a + b) + (c + d)
  {
  }

  /** The block's statements: the earlier ones, one event's, the later ones. */
  lemma {:induction false} BlockSplits(b: Block, k: nat, i: nat)
    requires k < |LOOPS| && i < |b.events|
    ensures Program(b) == Earlier(b, k, i) + (StmtsOf(b, LOOPS[k], i) + Later(b, k, i + 1))
  {
    ProgramIsBoth(b, k, i);
    Joined(StmtsOf(b, LOOPS[k], i), GatherFrom(b, LOOPS[k], i + 1), ProgramFrom(b, k + 1));
  }

  lemma ExecThree(t: Tables, a: seq<Stmt>, b: seq<Stmt>, c: seq<Stmt>)
    ensures ExecAll(t, a + (b + c)) == ExecAll(ExecAll(ExecAll(t, a), b), c)
  {
    ExecAllAppend(t, a, b + c);
    ExecAllAppend(ExecAll(t, a), b, c);
  }

  /** The tables before an event's statements, and after them. */
  function Before(t: Tables, b: Block, k: nat, i: nat): Tables
    requires k < |LOOPS| && i <= |b.events|
  {
    ExecAll(t, Earlier(b, k, i))
  }

  function AfterEvent(t: Tables, b: Block, k: nat, i: nat): Tables
    requires k < |LOOPS| && i < |b.events|
  {
    ExecAll(Before(t, b, k, i), StmtsOf(b, LOOPS[k], i))
  }

  /** The block's effect is that of the later statements on what the event left. */
  lemma {:induction false} BlockIsRest(t: Tables, b: Block, k: nat, i: nat)
    requires k < |LOOPS| && i < |b.events|
    ensures ExecAll(t, Program(b)) == ExecAll(AfterEvent(t, b, k, i), Later(b, k, i + 1))
  {
    BlockSplits(b, k, i);
    ExecThree(t, Earlier(b, k, i), StmtsOf(b, LOOPS[k], i), Later(b, k, i + 1));
  }

  // Where a statement comes from

  ghost predicate ComesFrom(b: Block, stmt: Stmt, k: nat, i: nat) {
    k < |LOOPS| && i < |b.events| && stmt in StmtsOf(b, LOOPS[k], i)
  }

  lemma {:induction false} InGatherFrom(b: Block, k: nat, i: nat, stmt: Stmt) returns (j: nat)
    requires k < |LOOPS| && i <= |b.events| && stmt in GatherFrom(b, LOOPS[k], i)
    ensures i <= j && ComesFrom(b, stmt, k, j)
    decreases |b.events| - i
  {
    j := i;
    if stmt !in StmtsOf(b, LOOPS[k], i) {
      j := InGatherFrom(b, k, i + 1, stmt);
    }
  }

  lemma {:induction false} InProgramFrom(b: Block, k: nat, stmt: Stmt) returns (m: nat, j: nat)
    requires k <= |LOOPS| && stmt in ProgramFrom(b, k)
    ensures k <= m && ComesFrom(b, stmt, m, j)
    decreases |LOOPS| - k
  {
    if stmt in GatherFrom(b, LOOPS[k], 0) {
      m := k;
      j := InGatherFrom(b, k, 0, stmt);
    } else {
      m, j := InProgramFrom(b, k + 1, stmt);
    }
  }

  lemma {:induction false} InLater(b: Block, k: nat, i: nat, stmt: Stmt) returns (m: nat, j: nat)
    requires k < |LOOPS| && i <= |b.events| && stmt in Later(b, k, i)
    ensures ComesFrom(b, stmt, m, j) && (k < m || (k == m && i <= j))
  {
    if stmt in GatherFrom(b, LOOPS[k], i) {
      m := k;
      j := InGatherFrom(b, k, i, stmt);
    } else {
      m, j := InProgramFrom(b, k + 1, stmt);
    }
  }

  lemma {:induction false} InGather(b: Block, k: nat, n: nat, stmt: Stmt) returns (j: nat)
    requires k < |LOOPS| && n <= |b.events| && stmt in Gather(b, LOOPS[k], n)
    ensures j < n && ComesFrom(b, stmt, k, j)
  {
    j := n - 1;
    if stmt !in StmtsOf(b, LOOPS[k], n - 1) {
      j := InGather(b, k, n - 1, stmt);
    }
  }
}
