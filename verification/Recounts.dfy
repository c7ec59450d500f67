/**
 When the materialised counts of a chain's operators come out right: an attempt may be abandoned between
 what unsettles a count and its recount, and the attempt that completes the block may read less.
 */
module Recounts {
  import opened Convergence
  import opened Counts
  import opened OnChain
  import opened Outcomes
  import opened Readings
  import opened Schedules
  import opened Staking
  import opened Tables

  /** The event makes every attempt at its block recount the operator, whatever can be read. */
  predicate Touches(event: Event, id: OperatorId) {
    || (event.OperatorNominated? && event.operatorId == id)
    || (event.NominatorUnlocked? && event.operatorId == id)
    || (event.NominatedStakedUnlocked? && event.operatorId == id)
  }

  /** The event registers the operator, when it can be read. */
  predicate Registers(event: Event, id: OperatorId) {
    event.OperatorRegistered? && event.operatorId == id && event.operator.Some? && event.owner.Some?
  }

  predicate SomeTouches(events: seq<Event>, id: OperatorId) {
    exists event | event in events :: Touches(event, id)
  }

  predicate SomeRegisters(events: seq<Event>, id: OperatorId) {
    exists event | event in events :: Registers(event, id)
  }

  /** Only reads that may fail make the block's attempts recount the operator, though some unsettle its count. */
  predicate RecountHangs(events: seq<Event>, id: OperatorId) {
    SomeRegisters(events, id) && !SomeTouches(events, id)
  }

  // What a program does to a count

  predicate SomeUnsettles(stmts: seq<Stmt>, id: OperatorId) {
    exists stmt | stmt in stmts :: Unsettles(stmt, id)
  }

  /** Some statement unsettles the operator's count or recomputes it. */
  predicate BearOn(stmts: seq<Stmt>, id: OperatorId) {
    SomeUnsettles(stmts, id) || Recounts(stmts, id)
  }

  lemma BearOnJoined(a: seq<Stmt>, b: seq<Stmt>, id: OperatorId)
    ensures BearOn(a + b, id) ==> BearOn(a, id) || BearOn(b, id)
  {
  }

  lemma {:induction false} EpochLeavesCounts(b: Block, event: Event, n: nat, id: OperatorId)
    requires event.DomainEpochCompleted? && n <= |event.operators|
    ensures !BearOn(EpochStmts(b, event, n), id)
  {
    if n > 0 {
      EpochLeavesCounts(b, event, n - 1, id);
    }
  }

  /** The statements for one event bear on a count only if it registers the operator or touches it. */
  lemma {:induction false} EventBears(b: Block, loop: Loop, i: nat, id: OperatorId)
    requires i < |b.events|
    ensures BearOn(StmtsOf(b, loop, i), id) ==> Registers(b.events[i], id) || Touches(b.events[i], id)
  {
    if loop.Epochs? && b.events[i].DomainEpochCompleted? {
      EpochLeavesCounts(b, b.events[i], |b.events[i].operators|, id);
    }
  }

  function Flat(parts: seq<seq<Stmt>>): seq<Stmt> {
    if parts == [] then [] else Flat(parts[..|parts| - 1]) + parts[|parts| - 1]
  }

  /** What a loop executes, event by event. */
  function Parts(b: Block, loop: Loop, n: nat): (parts: seq<seq<Stmt>>)
    requires n <= |b.events|
    ensures |parts| == n && forall i :: 0 <= i < n ==> parts[i] == StmtsOf(b, loop, i)
  {
    seq(n, i requires 0 <= i < n => StmtsOf(b, loop, i))
  }

  lemma PartsBegin(b: Block, loop: Loop, i: nat, n: nat)
    requires i <= n <= |b.events|
    ensures Parts(b, loop, n)[..i] == Parts(b, loop, i)
  {
  }

  lemma {:induction false} FlatOneMore(parts: seq<seq<Stmt>>, longer: seq<seq<Stmt>>)
    requires longer != [] && longer[..|longer| - 1] == parts
    ensures Flat(longer) == Flat(parts) + longer[|parts|]
  {
  }

  lemma {:induction false} GatherIsFlat(b: Block, loop: Loop, n: nat)
    requires n <= |b.events|
    ensures Gather(b, loop, n) == Flat(Parts(b, loop, n))
  {
    if n > 0 {
      GatherIsFlat(b, loop, n - 1);
      PartsBegin(b, loop, n - 1, n);
      FlatOneMore(Parts(b, loop, n - 1), Parts(b, loop, n));
    }
  }

  lemma {:induction false} FlatBegins(parts: seq<seq<Stmt>>, i: nat)
    requires i <= |parts|
    ensures Flat(parts[..i]) <= Flat(parts)
  {
    if i < |parts| {
      FlatBegins(parts[..|parts| - 1], i);
      assert parts[..|parts| - 1][..i] == parts[..i];
    } else {
      assert parts[..i] == parts;
    }
  }

  lemma {:induction false} FlatBears(parts: seq<seq<Stmt>>, id: OperatorId)
    requires forall part | part in parts :: !BearOn(part, id)
    ensures !BearOn(Flat(parts), id)
  {
    if parts != [] {
      var init, last := parts[..|parts| - 1], parts[|parts| - 1];
      assert parts == init + [last];
      FlatBears(init, id);
      BearOnJoined(Flat(init), last, id);
    }
  }

  lemma {:induction false} InFlat(parts: seq<seq<Stmt>>, i: nat, stmt: Stmt)
    requires i < |parts| && stmt in parts[i]
    ensures stmt in Flat(parts)
  {
    if i < |parts| - 1 {
      InFlat(parts[..|parts| - 1], i, stmt);
    }
  }

  lemma {:induction false} GatherBears(b: Block, loop: Loop, n: nat, id: OperatorId)
    requires n <= |b.events|
    requires forall i | 0 <= i < n :: !Registers(b.events[i], id) && !Touches(b.events[i], id)
    ensures !BearOn(Gather(b, loop, n), id)
  {
    GatherIsFlat(b, loop, n);
    PartsBear(b, loop, n, id);
    FlatBears(Parts(b, loop, n), id);
  }

  lemma {:induction false} PartsBear(b: Block, loop: Loop, n: nat, id: OperatorId)
    requires n <= |b.events|
    requires forall i | 0 <= i < n :: !Registers(b.events[i], id) && !Touches(b.events[i], id)
    ensures forall part | part in Parts(b, loop, n) :: !BearOn(part, id)
  {
    forall part | part in Parts(b, loop, n)
      ensures !BearOn(part, id)
    {
      var i :| 0 <= i < n && part == Parts(b, loop, n)[i];
      EventBears(b, loop, i, id);
    }
  }

  lemma {:induction false} ProgramBearsUpTo(b: Block, k: nat, id: OperatorId)
    requires k <= |LOOPS|
    requires !SomeRegisters(b.events, id) && !SomeTouches(b.events, id)
    ensures !BearOn(ProgramUpTo(b, k), id)
  {
    if k > 0 {
      ProgramBearsUpTo(b, k - 1, id);
      GatherBears(b, LOOPS[k - 1], |b.events|, id);
      BearOnJoined(ProgramUpTo(b, k - 1), Gather(b, LOOPS[k - 1], |b.events|), id);
    }
  }

  /** The loop in which an event that touches an operator is handled. */
  function LoopOf(event: Event): nat {
    if event.OperatorNominated? then 5 else if event.NominatorUnlocked? then 7 else 8
  }

  lemma {:induction false} TouchRecounts(b: Block, i: nat, id: OperatorId)
    requires i < |b.events| && Touches(b.events[i], id)
    ensures RecountNominators(id) in StmtsOf(b, LOOPS[LoopOf(b.events[i])], i)
  {
    var event := b.events[i];
    match event
    case OperatorNominated(_, nominator, _) =>
      assert Nominator(b.height, id, nominator, Active)[1] == RecountNominators(id);
    case NominatorUnlocked(_, nominator) =>
      assert Nominator(b.height, id, nominator, Withdrawn)[1] == RecountNominators(id);
    case NominatedStakedUnlocked(_, nominator, hasDeposit) =>
      var status := if hasDeposit == Some(false) then Withdrawn else Active;
      assert Nominator(b.height, id, nominator, status)[1] == RecountNominators(id);
  }

  lemma {:induction false} InGather(b: Block, loop: Loop, n: nat, i: nat, stmt: Stmt)
    requires i < n <= |b.events| && stmt in StmtsOf(b, loop, i)
    ensures stmt in Gather(b, loop, n)
  {
    GatherIsFlat(b, loop, n);
    InFlat(Parts(b, loop, n), i, stmt);
  }

  lemma {:induction false} InProgram(b: Block, k: nat, loop: nat, stmt: Stmt)
    requires loop < k <= |LOOPS| && stmt in Gather(b, LOOPS[loop], |b.events|)
    ensures stmt in ProgramUpTo(b, k)
  {
    if loop < k - 1 {
      InProgram(b, k - 1, loop, stmt);
    }
  }

  /** A block that touches the operator recounts it. */
  lemma {:induction false} TouchedIsRecounted(b: Block, id: OperatorId)
    requires SomeTouches(b.events, id)
    ensures Recounts(Program(b), id)
  {
    var event :| event in b.events && Touches(event, id);
    var i :| 0 <= i < |b.events| && b.events[i] == event;
    TouchRecounts(b, i, id);
    InGather(b, LOOPS[LoopOf(event)], |b.events|, i, RecountNominators(id));
    InProgram(b, |LOOPS|, LoopOf(event), RecountNominators(id));
  }

  lemma {:induction false} ReadingTouches(truth: Block, read: Block, id: OperatorId)
    requires IsReading(truth, read)
    ensures SomeTouches(read.events, id) <==> SomeTouches(truth.events, id)
    ensures SomeRegisters(read.events, id) ==> SomeRegisters(truth.events, id)
  {
    forall i | 0 <= i < |truth.events|
      ensures Touches(read.events[i], id) <==> Touches(truth.events[i], id)
      ensures Registers(read.events[i], id) ==> Registers(truth.events[i], id)
      ensures truth.events[i] in truth.events && read.events[i] in read.events
    {
      assert ReadsEvent(truth.events[i], read.events[i]);
    }
  }

  // Enough

  /** When one attempt at a height may unsettle the operator's count, every attempt at it recounts it. */
  ghost predicate RecountedAlike(attempts: Attempts, id: OperatorId) {
    forall n, p, q | (n, p) in attempts && (n, q) in attempts && SomeUnsettles(p, id) :: Recounts(q, id)
  }

  lemma {:induction false} AlikeRepay(trace: seq<Ran<Stmt>>, attempts: Attempts, id: OperatorId)
    requires IsSchedule(trace) && MadeFrom(trace, attempts) && RecountedAlike(attempts, id)
    ensures Repays(trace, id)
  {
    forall ran | ran in trace && ran.index < |ran.program| && Unsettles(ran.program[ran.index], id)
      ensures Recounts(Attempted(trace, ran.block), id)
    {
      RunWasStarted(trace, ran);
      LatestWasRun(trace, ran.block);
      assert ran.program[ran.index] in ran.program;
      assert SomeUnsettles(ran.program, id);
    }
  }

  lemma {:induction false} AlikeCountsRight(t: Tables, trace: seq<Ran<Stmt>>, attempts: Attempts, id: OperatorId)
    requires AreBlockPrograms(attempts) && CompletedFrom(trace, attempts) && RecountedAlike(attempts, id)
    requires CountIsRight(t, id)
    ensures CountIsRight(TablesFrom(t, trace), id)
  {
    AllRunBlockPrograms(trace);
    AlikeRepay(trace, attempts, id);
    CountsRightWhenComplete(t, trace, id);
  }

  lemma {:induction false} ReadingsRecountAlike(chain: seq<Block>, id: OperatorId)
    requires forall n | 0 <= n < |chain| :: !RecountHangs(chain[n].events, id)
    ensures RecountedAlike(ReadingsOf(chain), id)
  {
    forall n, p, q | (n, p) in ReadingsOf(chain) && (n, q) in ReadingsOf(chain) && SomeUnsettles(p, id)
      ensures Recounts(q, id)
    {
      var unsettling: Block :| IsReading(chain[n], unsettling) && p == Program(unsettling);
      var read: Block :| IsReading(chain[n], read) && q == Program(read);
      ReadingTouches(chain[n], unsettling, id);
      ReadingTouches(chain[n], read, id);
      if !SomeTouches(chain[n].events, id) {
        ProgramBearsUpTo(unsettling, |LOOPS|, id);
        assert false;
      }
      TouchedIsRecounted(read, id);
    }
  }

  // Needed

  /** Statements that do not bear on the operator's count keep it, right or wrong. */
  lemma {:induction false} LeavesCount(t: Tables, stmts: seq<Stmt>, id: OperatorId)
    requires !BearOn(stmts, id)
    ensures var after := ExecAll(t, stmts);
            && (id in after.operators <==> id in t.operators)
            && (CountIsRight(after, id) <==> CountIsRight(t, id))
  {
    if stmts != [] {
      var init, last := stmts[..|stmts| - 1], stmts[|stmts| - 1];
      assert stmts == init + [last];
      LeavesCount(t, init, id);
      assert last in stmts;
      LeavesCountStep(ExecAll(t, init), last, id);
    }
  }

  lemma {:induction false} LeavesCountStep(t: Tables, stmt: Stmt, id: OperatorId)
    requires !Unsettles(stmt, id) && stmt != RecountNominators(id)
    ensures id in Exec(t, stmt).operators <==> id in t.operators
    ensures CountIsRight(Exec(t, stmt), id) <==> CountIsRight(t, id)
  {
    if stmt.UpsertNominator? {
      ActiveCountElsewhere(t.nominators, stmt.key, NominatorRow(stmt.status, stmt.height), id);
    }
  }

  /** An operator that has just been inserted, with its owner made active, has a wrong count until it is recounted. */
  lemma {:induction false} InsertedIsWrong(
    t: Tables, id: OperatorId, identity: OperatorIdentity, stats: OperatorStats, owner: Address, height: nat)
    requires id !in t.operators && NominatorKey(id, owner) !in t.nominators
    ensures var after := Exec(Exec(t, UpsertOperator(id, identity, stats)),
                              UpsertNominator(NominatorKey(id, owner), Active, height));
            id in after.operators && !CountIsRight(after, id)
  {
    var after := Exec(Exec(t, UpsertOperator(id, identity, stats)),
                      UpsertNominator(NominatorKey(id, owner), Active, height));
    var active := set key | key in after.nominators && key.operatorId == id && after.nominators[key].status == Active;
    assert NominatorKey(id, owner) in active;
  }

  /** The operator has no row, nor any nominator. */
  ghost predicate IsUnknown(t: Tables, id: OperatorId) {
    id !in t.operators && forall key | key in t.nominators :: key.operatorId != id
  }

  lemma StaysUnknown(t: Tables, stmt: Stmt, id: OperatorId)
    requires IsUnknown(t, id) && !Unsettles(stmt, id)
    ensures IsUnknown(Exec(t, stmt), id)
  {
  }

  /** Statements that never unsettle the operator's count write nothing about it. */
  lemma {:induction false} NothingWritten(stmts: seq<Stmt>, id: OperatorId)
    requires !SomeUnsettles(stmts, id)
    ensures IsUnknown(ExecAll(EMPTY, stmts), id)
  {
    if stmts != [] {
      var init, last := stmts[..|stmts| - 1], stmts[|stmts| - 1];
      assert stmts == init + [last];
      NothingWritten(init, id);
      assert last in stmts;
      StaysUnknown(ExecAll(EMPTY, init), last, id);
    }
  }

  lemma {:induction false} ProgramBegins(b: Block, k: nat)
    requires 1 <= k <= |LOOPS|
    ensures ProgramUpTo(b, 1) <= ProgramUpTo(b, k)
  {
    if k > 1 {
      ProgramBegins(b, k - 1);
    }
  }

  lemma {:induction false} GatherBegins(b: Block, loop: Loop, i: nat, n: nat)
    requires i <= n <= |b.events|
    ensures Gather(b, loop, i) <= Gather(b, loop, n)
  {
    GatherIsFlat(b, loop, i);
    GatherIsFlat(b, loop, n);
    PartsBegin(b, loop, i, n);
    FlatBegins(Parts(b, loop, n), i);
  }

  /** The block's first statements, up to those of the first `i` registrations. */
  function Opening(b: Block, i: nat): seq<Stmt>
    requires i <= |b.events|
  {
    ProgramUpTo(b, 0) + Gather(b, Registrations, i)
  }

  lemma {:induction false} ProgramOpens(b: Block, i: nat)
    requires i <= |b.events|
    ensures Opening(b, i) <= Program(b)
  {
    ProgramBegins(b, |LOOPS|);
    GatherBegins(b, Registrations, i, |b.events|);
    assert Opening(b, i) <= ProgramUpTo(b, 1);
  }

  lemma {:induction false} FirstRegistration(events: seq<Event>, id: OperatorId) returns (i: nat)
    requires SomeRegisters(events, id)
    ensures i < |events| && Registers(events[i], id) && !SomeRegisters(events[..i], id)
  {
    var init, last := events[..|events| - 1], events[|events| - 1];
    assert events == init + [last];
    if SomeRegisters(init, id) {
      i := FirstRegistration(init, id);
      assert init[..i] == events[..i];
    } else {
      i := |events| - 1;
    }
  }

  /** The opening up to the upsert of the owner, just before the recount, leaves a wrong count. */
  lemma {:induction false} OpeningIsWrong(b: Block, i: nat, id: OperatorId) returns (opening: seq<Stmt>)
    requires i < |b.events| && Registers(b.events[i], id)
    requires !SomeRegisters(b.events[..i], id) && !SomeTouches(b.events, id)
    ensures opening <= Program(b) && opening != []
    ensures id in ExecAll(EMPTY, opening).operators && !CountIsRight(ExecAll(EMPTY, opening), id)
  {
    var event, before := b.events[i], Opening(b, i);
    var upsert := UpsertOperator(id, event.operator.value.Identity(event.owner.value), event.operator.value.Stats());
    var owner := UpsertNominator(NominatorKey(id, event.owner.value), Active, b.height);
    opening := before + [upsert] + [owner];
    assert StmtsOf(b, Registrations, i) == [upsert] + [owner] + [RecountNominators(id)];
    assert Opening(b, i + 1) == opening + [RecountNominators(id)];
    ProgramOpens(b, i + 1);
    forall j | 0 <= j < i
      ensures !Registers(b.events[j], id) && !Touches(b.events[j], id)
    {
      assert b.events[..i][j] == b.events[j] && b.events[..i][j] in b.events[..i] && b.events[j] in b.events;
    }
    GatherBears(b, Registrations, i, id);
    NothingWritten(before, id);
    var t := ExecAll(EMPTY, before);
    assert (before + [upsert])[..|before|] == before && opening[..|before| + 1] == before + [upsert];
    InsertedIsWrong(t, id, upsert.identity, upsert.stats, event.owner.value, b.height);
  }

  lemma {:induction false} TablesFromWhole(
    t: Tables, trace: seq<Ran<Stmt>>, n: nat, program: seq<Stmt>, length: nat)
    requires length <= |program|
    ensures TablesFrom(t, trace + Whole(n, program, length)) == ExecAll(TablesFrom(t, trace), program[..length])
    decreases length
  {
    if length == 0 {
      assert trace + Whole(n, program, 0) == trace;
    } else {
      var longer, shorter := trace + Whole(n, program, length), trace + Whole(n, program, length - 1);
      TablesFromWhole(t, trace, n, program, length - 1);
      WholeOneMore(trace, n, program, length);
      assert longer[..|longer| - 1] == shorter;
      assert program[..length][..length - 1] == program[..length - 1];
    }
  }

  /** One attempt abandoned after `length` statements, then another in full. */
  function Retried(n: nat, p: seq<Stmt>, length: nat, q: seq<Stmt>): seq<Ran<Stmt>>
    requires length <= |p|
  {
    Whole(n, p, length) + Whole(n, q, |q|)
  }

  lemma {:induction false} RetriedCompletes(n: nat, p: seq<Stmt>, length: nat, q: seq<Stmt>, k: nat)
    requires length <= |p| && q != []
    ensures IsSchedule(Retried(n, p, length, q)) && Complete(Retried(n, p, length, q), k)
  {
    var first := Whole(n, p, length);
    assert [] + first == first;
    WholeIsSchedule([], n, p, length, k);
    WholeIsSchedule(first, n, q, |q|, k);
  }

  lemma {:induction false} RetriedIsMade(n: nat, p: seq<Stmt>, length: nat, q: seq<Stmt>, attempts: Attempts)
    requires length <= |p| && q != [] && (n, p) in attempts && (n, q) in attempts
    ensures CompletedFrom(Retried(n, p, length, q), attempts)
  {
    RetriedCompletes(n, p, length, q, 0);
    forall k: nat
      ensures Complete(Retried(n, p, length, q), k)
    {
      RetriedCompletes(n, p, length, q, k);
    }
    forall ran | ran in Retried(n, p, length, q)
      ensures (ran.block, ran.program) in attempts
    {
      assert ran in Whole(n, p, length) || ran in Whole(n, q, |q|);
    }
  }

  lemma {:induction false} TablesFromRetried(t: Tables, n: nat, p: seq<Stmt>, length: nat, q: seq<Stmt>)
    requires length <= |p|
    ensures TablesFrom(t, Retried(n, p, length, q)) == ExecAll(ExecAll(t, p[..length]), q)
  {
    var first := Whole(n, p, length);
    assert [] + first == first && q[..|q|] == q;
    TablesFromWhole(t, [], n, p, length);
    TablesFromWhole(t, first, n, q, |q|);
  }

  /** A wrong count that the second attempt does not bear on stays wrong. */
  lemma {:induction false} WrongStays(
    t: Tables, n: nat, p: seq<Stmt>, opening: seq<Stmt>, q: seq<Stmt>, id: OperatorId)
    requires opening <= p && !CountIsRight(ExecAll(t, opening), id)
    requires !BearOn(q, id)
    ensures !CountIsRight(TablesFrom(t, Retried(n, p, |opening|, q)), id)
  {
    assert p[..|opening|] == opening;
    TablesFromRetried(t, n, p, |opening|, q);
    LeavesCount(ExecAll(t, opening), q, id);
  }

  /** When all reads fail, a block that does not touch the operator does not bear on its count. */
  lemma {:induction false} FailedDoesNotBear(b: Block, id: OperatorId)
    requires !SomeTouches(b.events, id)
    ensures !BearOn(Program(AllFailed(b)), id)
  {
    ReadingTouches(b, AllFailed(b), id);
    ProgramBearsUpTo(AllFailed(b), |LOOPS|, id);
  }

  /**
   Where a recount hangs on a read, a count can stay wrong: an attempt is abandoned between the upserts
   of a registration and its recount, and the attempt that completes the block can read nothing.
   */
  lemma {:induction false} HangingRecountMiscounts(chain: seq<Block>, n: nat, id: OperatorId)
    returns (trace: seq<Ran<Stmt>>)
    requires Numbered(chain) && n < |chain| && RecountHangs(chain[n].events, id)
    ensures CompletedFrom(trace, ReadingsOf(chain)) && !CountIsRight(TablesAfter(trace), id)
  {
    var i := FirstRegistration(chain[n].events, id);
    var opening := OpeningIsWrong(chain[n], i, id);
    var p, q := Program(chain[n]), Program(AllFailed(chain[n]));
    BothReadings(chain, n, NominatorKey(id, 0));
    ReadingsAreBlockPrograms(chain);
    assert IsBlockProgram(q, n);
    FailedDoesNotBear(chain[n], id);
    RetriedIsMade(n, p, |opening|, q, ReadingsOf(chain));
    WrongStays(EMPTY, n, p, opening, q, id);
    trace := Retried(n, p, |opening|, q);
    FromEmpty(trace);
  }

  /** Whatever was abandoned and whatever could be read, once all started blocks are complete all counts are right. */
  ghost predicate CountsAlwaysRight(chain: seq<Block>) {
    forall trace: seq<Ran<Stmt>>, id | CompletedFrom(trace, ReadingsOf(chain)) :: CountIsRight(TablesAfter(trace), id)
  }

  ghost predicate NoRecountHangs(chain: seq<Block>) {
    forall n, id | 0 <= n < |chain| :: !RecountHangs(chain[n].events, id)
  }

  /**
   On a fixed chain the counts of all complete schedules are right, whatever fails to be read in whichever
   attempt, if and only if no block registers an operator that it does not otherwise touch.
   */
  lemma {:induction false} CountsAlwaysRightIff(chain: seq<Block>)
    requires Numbered(chain)
    ensures CountsAlwaysRight(chain) <==> NoRecountHangs(chain)
  {
    ReadingsAreBlockPrograms(chain);
    if NoRecountHangs(chain) {
      forall trace: seq<Ran<Stmt>>, id | CompletedFrom(trace, ReadingsOf(chain))
        ensures CountIsRight(TablesAfter(trace), id)
      {
        ReadingsRecountAlike(chain, id);
        AlikeCountsRight(EMPTY, trace, ReadingsOf(chain), id);
        FromEmpty(trace);
      }
    }
    if CountsAlwaysRight(chain) {
      forall n, id | 0 <= n < |chain|
        ensures !RecountHangs(chain[n].events, id)
      {
        if RecountHangs(chain[n].events, id) {
          var trace := HangingRecountMiscounts(chain, n, id);
        }
      }
    }
  }

  // From any tables, on a chain that may change

  /**
   From tables with a right count, whatever else they hold, all complete schedules of these attempts leave
   a right count.
   */
  ghost predicate KeepsCountRight(attempts: Attempts, id: OperatorId) {
    forall t: Tables, trace: seq<Ran<Stmt>> | CountIsRight(t, id) && CompletedFrom(trace, attempts) ::
      CountIsRight(TablesFrom(t, trace), id)
  }

  /** The nominators of one operator. */
  ghost predicate SameNominators(t: Tables, after: Tables, id: OperatorId) {
    forall address ::
      Lookup(t.nominators, NominatorKey(id, address)) == Lookup(after.nominators, NominatorKey(id, address))
  }

  /** Statements that do not unsettle an operator's count leave its nominators, its presence and a right count. */
  lemma {:induction false} LeavesOperator(t: Tables, stmts: seq<Stmt>, id: OperatorId)
    requires !SomeUnsettles(stmts, id) && CountIsRight(t, id)
    ensures var after := ExecAll(t, stmts);
            && (id in after.operators <==> id in t.operators)
            && CountIsRight(after, id) && SameNominators(t, after, id)
  {
    if stmts != [] {
      var init, last := stmts[..|stmts| - 1], stmts[|stmts| - 1];
      assert stmts == init + [last];
      LeavesOperator(t, init, id);
      assert last in stmts;
      CountStep(ExecAll(t, init), last, id);
    }
  }

  /** Tables with a right count that the statement makes wrong. */
  function Unsettled(stmt: Stmt, id: OperatorId): Tables
    requires Unsettles(stmt, id)
  {
    var row := OperatorRow(OperatorIdentity(0, 0, [], 0, 0), OperatorStats(Registered, 0, 0, 0), 0);
    if stmt.UpsertOperator? then EMPTY.(nominators := map[NominatorKey(id, 0) := NominatorRow(Active, 0)])
    else if stmt.status == Active then EMPTY.(operators := map[id := row])
    else EMPTY.(operators := map[id := row.(nominatorCount := 1)],
                nominators := map[stmt.key := NominatorRow(Active, 0)])
  }

  lemma {:induction false} NoneActive(nominators: map<NominatorKey, NominatorRow>, id: OperatorId)
    requires forall key | key in nominators && key.operatorId == id :: nominators[key].status != Active
    ensures ActiveCount(nominators, id) == 0
  {
    var active := set key | key in nominators && key.operatorId == id && nominators[key].status == Active;
    assert active == {};
  }

  lemma {:induction false} OneActive(nominators: map<NominatorKey, NominatorRow>, key: NominatorKey)
    requires key in nominators && nominators[key].status == Active
    requires forall k | k in nominators && k.operatorId == key.operatorId :: k == key
    ensures ActiveCount(nominators, key.operatorId) == 1
  {
    var active := set k | k in nominators && k.operatorId == key.operatorId && nominators[k].status == Active;
    assert active == {key};
  }

  lemma {:induction false} UnsettledIsRight(stmt: Stmt, id: OperatorId)
    requires Unsettles(stmt, id)
    ensures CountIsRight(Unsettled(stmt, id), id)
  {
    if stmt.UpsertNominator? {
      if stmt.status == Active {
        NoneActive(Unsettled(stmt, id).nominators, id);
      } else {
        OneActive(Unsettled(stmt, id).nominators, stmt.key);
      }
    }
  }

  lemma {:induction false} UnsettledBecomesWrong(stmt: Stmt, id: OperatorId, t: Tables)
    requires Unsettles(stmt, id) && CountIsRight(t, id) && SameNominators(Unsettled(stmt, id), t, id)
    requires id in t.operators <==> id in Unsettled(stmt, id).operators
    ensures !CountIsRight(Exec(t, stmt), id)
  {
    assert forall key | key in t.nominators && key.operatorId == id ::
        Lookup(t.nominators, NominatorKey(id, key.address)) == Some(t.nominators[key]);
    var after := Exec(t, stmt);
    if stmt.UpsertOperator? {
      assert Lookup(t.nominators, NominatorKey(id, 0)) == Some(NominatorRow(Active, 0));
      OneActive(after.nominators, NominatorKey(id, 0));
    } else if stmt.status == Active {
      NoneActive(t.nominators, id);
      OneActive(after.nominators, stmt.key);
    } else {
      assert Lookup(t.nominators, NominatorKey(id, stmt.key.address)) == Some(NominatorRow(Active, 0));
      OneActive(t.nominators, stmt.key);
      NoneActive(after.nominators, id);
    }
  }

  lemma {:induction false} FirstUnsettling(stmts: seq<Stmt>, id: OperatorId) returns (i: nat)
    requires SomeUnsettles(stmts, id)
    ensures i < |stmts| && Unsettles(stmts[i], id) && !SomeUnsettles(stmts[..i], id)
  {
    var init, last := stmts[..|stmts| - 1], stmts[|stmts| - 1];
    assert stmts == init + [last];
    if SomeUnsettles(init, id) {
      i := FirstUnsettling(init, id);
      assert init[..i] == stmts[..i];
    } else {
      i := |stmts| - 1;
    }
  }

  lemma {:induction false} UnsettlingRecounts(program: seq<Stmt>, id: OperatorId)
    requires Recounted(program) && SomeUnsettles(program, id)
    ensures Recounts(program, id)
  {
    var i := FirstUnsettling(program, id);
    assert RecountsAfter(program, i + 1, id);
  }

  lemma {:induction false} UnpaidMiscounts(attempts: Attempts, n: nat, p: seq<Stmt>, q: seq<Stmt>, id: OperatorId)
    returns (t: Tables, trace: seq<Ran<Stmt>>)
    requires AreBlockPrograms(attempts) && (n, p) in attempts && (n, q) in attempts
    requires SomeUnsettles(p, id) && !Recounts(q, id)
    ensures CountIsRight(t, id) && CompletedFrom(trace, attempts) && !CountIsRight(TablesFrom(t, trace), id)
  {
    assert IsBlockProgram(q, n);
    if SomeUnsettles(q, id) {
      UnsettlingRecounts(q, id);
    }
    var i := FirstUnsettling(p, id);
    t := Unsettled(p[i], id);
    UnsettledIsRight(p[i], id);
    LeavesOperator(t, p[..i], id);
    UnsettledBecomesWrong(p[i], id, ExecAll(t, p[..i]));
    assert p[..i + 1][..i] == p[..i];
    RetriedIsMade(n, p, i + 1, q, attempts);
    WrongStays(t, n, p, p[..i + 1], q, id);
    trace := Retried(n, p, i + 1, q);
  }

  /**
   From any tables, the count stays right over all complete schedules if and only if the attempts at one
   height agree: when one may unsettle the count, all recount it.
   */
  lemma {:induction false} KeepsCountRightIff(attempts: Attempts, id: OperatorId)
    requires AreBlockPrograms(attempts)
    ensures KeepsCountRight(attempts, id) <==> RecountedAlike(attempts, id)
  {
    if RecountedAlike(attempts, id) {
      forall t: Tables, trace: seq<Ran<Stmt>> | CountIsRight(t, id) && CompletedFrom(trace, attempts)
        ensures CountIsRight(TablesFrom(t, trace), id)
      {
        AlikeCountsRight(t, trace, attempts, id);
      }
    }
    if KeepsCountRight(attempts, id) {
      forall n, p, q | (n, p) in attempts && (n, q) in attempts && SomeUnsettles(p, id)
        ensures Recounts(q, id)
      {
        if !Recounts(q, id) {
          var t, trace := UnpaidMiscounts(attempts, n, p, q, id);
        }
      }
    }
  }

  /** The attempts that may be made at any of these blocks. */
  ghost function ReadingsOfAll(blocks: set<Block>): Attempts {
    iset b, read: Block | b in blocks && IsReading(b, read) :: (b.height, Program(read))
  }

  /** Of two blocks of one height, if one bears on the count, the other is sure to recount it. */
  ghost predicate BearAlike(blocks: set<Block>, id: OperatorId) {
    forall b, c | b in blocks && c in blocks && b.height == c.height && Bears(b.events, id) :: SomeTouches(c.events, id)
  }

  predicate Bears(events: seq<Event>, id: OperatorId) {
    SomeRegisters(events, id) || SomeTouches(events, id)
  }

  lemma {:induction false} BearingUnsettles(b: Block, id: OperatorId)
    requires Bears(b.events, id)
    ensures SomeUnsettles(Program(b), id)
  {
    if SomeTouches(b.events, id) {
      var event :| event in b.events && Touches(event, id);
      var i :| 0 <= i < |b.events| && b.events[i] == event;
      var stmts := StmtsOf(b, LOOPS[LoopOf(event)], i);
      assert stmts[0] in stmts && Unsettles(stmts[0], id);
      InGather(b, LOOPS[LoopOf(event)], |b.events|, i, stmts[0]);
      InProgram(b, |LOOPS|, LoopOf(event), stmts[0]);
    } else {
      var event :| event in b.events && Registers(event, id);
      var i :| 0 <= i < |b.events| && b.events[i] == event;
      var stmts := StmtsOf(b, LOOPS[0], i);
      assert stmts[0] in stmts && Unsettles(stmts[0], id);
      InGather(b, LOOPS[0], |b.events|, i, stmts[0]);
      InProgram(b, |LOOPS|, 0, stmts[0]);
    }
  }

  lemma {:induction false} AllAreBlockPrograms(blocks: set<Block>)
    ensures AreBlockPrograms(ReadingsOfAll(blocks))
  {
    forall n, p | (n, p) in ReadingsOfAll(blocks)
      ensures IsBlockProgram(p, n)
    {
      var b, read: Block :| b in blocks && IsReading(b, read) && n == b.height && p == Program(read);
      ProgramIsBlockProgram(read);
    }
  }

  /** What may unsettle the count comes from a block that bears on it; what touches it is always recounted. */
  lemma {:induction false} ReadingBears(b: Block, read: Block, id: OperatorId)
    requires IsReading(b, read)
    ensures SomeUnsettles(Program(read), id) ==> Bears(b.events, id)
    ensures SomeTouches(b.events, id) ==> Recounts(Program(read), id)
  {
    ReadingTouches(b, read, id);
    if !Bears(read.events, id) {
      ProgramBearsUpTo(read, |LOOPS|, id);
    }
    if SomeTouches(read.events, id) {
      TouchedIsRecounted(read, id);
    }
  }

  lemma {:induction false} AlikeBlocksRecount(blocks: set<Block>, id: OperatorId)
    requires BearAlike(blocks, id)
    ensures RecountedAlike(ReadingsOfAll(blocks), id)
  {
    var attempts := ReadingsOfAll(blocks);
    forall n, p, q | (n, p) in attempts && (n, q) in attempts && SomeUnsettles(p, id)
      ensures Recounts(q, id)
    {
      var b, read: Block :| b in blocks && IsReading(b, read) && n == b.height && p == Program(read);
      var c, other: Block :| c in blocks && IsReading(c, other) && n == c.height && q == Program(other);
      ReadingBears(b, read, id);
      ReadingBears(c, other, id);
    }
  }

  lemma {:induction false} RecountingPairIsAlike(attempts: Attempts, b: Block, c: Block, id: OperatorId)
    requires RecountedAlike(attempts, id) && Bears(b.events, id)
    requires (b.height, Program(b)) in attempts && (b.height, Program(AllFailed(c))) in attempts
    ensures SomeTouches(c.events, id)
  {
    BearingUnsettles(b, id);
    if !SomeTouches(c.events, id) {
      FailedDoesNotBear(c, id);
    }
  }

  lemma {:induction false} RecountingBlocksAreAlike(blocks: set<Block>, id: OperatorId)
    requires RecountedAlike(ReadingsOfAll(blocks), id)
    ensures BearAlike(blocks, id)
  {
    forall b, c | b in blocks && c in blocks && b.height == c.height && Bears(b.events, id)
      ensures SomeTouches(c.events, id)
    {
      OwnReadings(blocks, b);
      OwnReadings(blocks, c);
      RecountingPairIsAlike(ReadingsOfAll(blocks), b, c, id);
    }
  }

  lemma OwnReadings(blocks: set<Block>, b: Block)
    requires b in blocks
    ensures (b.height, Program(b)) in ReadingsOfAll(blocks)
    ensures (b.height, Program(AllFailed(b))) in ReadingsOfAll(blocks)
  {
    assert IsReading(b, b) && IsReading(b, AllFailed(b));
  }

  /**
   On a chain that may change among these blocks, and whatever fails to be read: an operator's count stays
   right, from any tables, if and only if of two blocks of one height either both are sure to recount it
   or neither bears on it.
   */
  lemma {:induction false} CountsStayRightIff(blocks: set<Block>, id: OperatorId)
    ensures KeepsCountRight(ReadingsOfAll(blocks), id) <==> BearAlike(blocks, id)
  {
    AllAreBlockPrograms(blocks);
    KeepsCountRightIff(ReadingsOfAll(blocks), id);
    if BearAlike(blocks, id) {
      AlikeBlocksRecount(blocks, id);
    }
    if RecountedAlike(ReadingsOfAll(blocks), id) {
      RecountingBlocksAreAlike(blocks, id);
    }
  }

  /** The registration of operator 3 by owner 7, and nothing else. */
  const REGISTRATION :=
    Block(0, 0, [OperatorRegistered(3, Some(FullOperator([], 0, 0, 0, 0, 0, Registered, 0)), Some(7))])

  /** The failing case: the registered operator's count is wrong although its block has been completed. */
  lemma {:induction false} AbandonedRegistrationMiscounts() returns (trace: seq<Ran<Stmt>>)
    ensures CompletedFrom(trace, ReadingsOf([REGISTRATION])) && !CountIsRight(TablesAfter(trace), 3)
  {
    assert Registers(REGISTRATION.events[0], 3) && REGISTRATION.events[0] in REGISTRATION.events;
    trace := HangingRecountMiscounts([REGISTRATION], 0, 3);
  }
}
