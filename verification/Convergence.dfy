/**
 What interleavings leave in the nominators table.

 Upserts are guarded by block height, so the row of a key is that of the newest block that wrote it.
 Attempts at one height may have different statements, so what converges is stated exactly.
 */
module Convergence {
  import opened Outcomes
  import opened Schedules
  import opened Tables

  /** The status the last upsert of a key in these statements sets, if there is one. */
  function LastStatus(stmts: seq<Stmt>, key: NominatorKey): Option<NominatorStatus> {
    if stmts == [] then None
    else
      var last := stmts[|stmts| - 1];
      if last.UpsertNominator? && last.key == key then Some(last.status)
      else LastStatus(stmts[..|stmts| - 1], key)
  }

  lemma {:induction false} LastStatusFound(stmts: seq<Stmt>, key: NominatorKey, i: nat)
    requires i < |stmts| && stmts[i].UpsertNominator? && stmts[i].key == key
    ensures LastStatus(stmts, key).Some?
  {
    if i < |stmts| - 1 {
      LastStatusFound(stmts[..|stmts| - 1], key, i);
    }
  }

  lemma {:induction false} LastStatusIsSet(stmts: seq<Stmt>, key: NominatorKey) returns (i: nat)
    requires LastStatus(stmts, key).Some?
    ensures i < |stmts| && stmts[i].UpsertNominator? && stmts[i].key == key
  {
    i := |stmts| - 1;
    if !(stmts[i].UpsertNominator? && stmts[i].key == key) {
      i := LastStatusIsSet(stmts[..|stmts| - 1], key);
    }
  }

  lemma LastStatusOneMore(stmts: seq<Stmt>, stmt: Stmt, key: NominatorKey)
    ensures LastStatus(stmts + [stmt], key)
            == if stmt.UpsertNominator? && stmt.key == key then Some(stmt.status) else LastStatus(stmts, key)
  {
    assert (stmts + [stmt])[..|stmts|] == stmts;
  }

  /** This step of a schedule upserts the key. */
  predicate Upserts(ran: Ran<Stmt>, key: NominatorKey) {
    ran.index < |ran.program| && ran.program[ran.index].UpsertNominator? && ran.program[ran.index].key == key
  }

  /** The row of a key, if the table has one. */
  function Lookup(nominators: map<NominatorKey, NominatorRow>, key: NominatorKey): Option<NominatorRow> {
    if key in nominators then Some(nominators[key]) else None
  }

  /** Every executed upsert of the key is at most as high as its row. */
  ghost predicate CoversUpserts(trace: seq<Ran<Stmt>>, key: NominatorKey, row: Option<NominatorRow>) {
    forall ran | ran in trace && Upserts(ran, key) :: row.Some? && ran.block <= row.value.height
  }

  /** The row's height is that of an executed upsert of the key. */
  ghost predicate ComesFromUpsert(trace: seq<Ran<Stmt>>, key: NominatorKey, row: Option<NominatorRow>) {
    row.Some? ==> exists ran | ran in trace && Upserts(ran, key) :: ran.block == row.value.height
  }

  /** The row has the status the latest attempt at its height last set, if that attempt set one. */
  ghost predicate HasLastStatus(trace: seq<Ran<Stmt>>, key: NominatorKey, row: Option<NominatorRow>) {
    row.Some? ==>
      var status := LastStatus(Executed(trace, row.value.height), key);
      status.Some? ==> status.value == row.value.status
  }

  /** One step's effect on a key's row. */
  lemma {:induction false} RowStep(trace: seq<Ran<Stmt>>, key: NominatorKey)
    requires IsSchedule(trace) && RunsBlockPrograms(trace) && trace != []
    ensures var last := trace[|trace| - 1];
            var before := Lookup(TablesAfter(trace[..|trace| - 1]).nominators, key);
            Lookup(TablesAfter(trace).nominators, key)
              == if !Upserts(last, key) || (before.Some? && last.block < before.value.height) then before
                 else Some(NominatorRow(last.program[last.index].status, last.block))
  {
    var last := trace[|trace| - 1];
    assert WritesAtHeight(last.program[last.index], last.block);
  }

  lemma {:induction false} CoverageStep(
    trace: seq<Ran<Stmt>>, key: NominatorKey, before: Option<NominatorRow>, after: Option<NominatorRow>)
    requires trace != []
    requires CoversUpserts(trace[..|trace| - 1], key, before)
    requires ComesFromUpsert(trace[..|trace| - 1], key, before)
    requires after == before || (after.Some? && after.value.height == trace[|trace| - 1].block
                                 && (before.None? || before.value.height <= after.value.height))
    requires after != before ==> Upserts(trace[|trace| - 1], key)
    requires Upserts(trace[|trace| - 1], key) ==> after.Some? && trace[|trace| - 1].block <= after.value.height
    ensures CoversUpserts(trace, key, after) && ComesFromUpsert(trace, key, after)
  {
    var init, last := trace[..|trace| - 1], trace[|trace| - 1];
    assert trace == init + [last];
    if after == before && before.Some? {
      var ran :| ran in init && Upserts(ran, key) && ran.block == before.value.height;
      assert ran in trace;
    }
    assert last in trace;
  }

  lemma {:induction false} StatusStep(
    trace: seq<Ran<Stmt>>, key: NominatorKey, before: Option<NominatorRow>, after: Option<NominatorRow>)
    requires IsSchedule(trace) && trace != []
    requires HasLastStatus(trace[..|trace| - 1], key, before)
    requires var last := trace[|trace| - 1];
             after == if !Upserts(last, key) || (before.Some? && last.block < before.value.height) then before
                      else Some(NominatorRow(last.program[last.index].status, last.block))
    ensures HasLastStatus(trace, key, after)
  {
    if after.Some? {
      var init, last := trace[..|trace| - 1], trace[|trace| - 1];
      ExecutedStep(trace, after.value.height);
      LastStatusOneMore(Executed(init, after.value.height), last.program[last.index], key);
      LastStatusOneMore([], last.program[0], key);
      assert [] + [last.program[0]] == [last.program[0]];
    }
  }

  /**
   What every schedule keeps for a nominator's row: it is absent when no executed statement upserts
   the key, else it carries the greatest height whose statements did, and the status of the last
   such upsert in that height's most recent attempt, if there was one.
   */
  lemma {:induction false} RowIsNewest(trace: seq<Ran<Stmt>>, key: NominatorKey)
    requires IsSchedule(trace) && RunsBlockPrograms(trace)
    ensures var row := Lookup(TablesAfter(trace).nominators, key);
            && CoversUpserts(trace, key, row)
            && ComesFromUpsert(trace, key, row)
            && HasLastStatus(trace, key, row)
  {
    if trace != [] {
      var init := trace[..|trace| - 1];
      RowIsNewest(init, key);
      RowStep(trace, key);
      var before := Lookup(TablesAfter(init).nominators, key);
      var after := Lookup(TablesAfter(trace).nominators, key);
      CoverageStep(trace, key, before, after);
      StatusStep(trace, key, before, after);
    }
  }

  // Tables that only completed attempts have decided

  /** The key's row is from a height whose latest attempt writes it too. */
  ghost predicate Owned(trace: seq<Ran<Stmt>>, key: NominatorKey) {
    key in TablesAfter(trace).nominators ==>
      LastStatus(Attempted(trace, TablesAfter(trace).nominators[key].height), key).Some?
  }

  /** No abandoned attempt is the newest writer of a key that its height's latest attempt does not write. */
  ghost predicate AllOwned(trace: seq<Ran<Stmt>>) {
    forall key :: Owned(trace, key)
  }

  predicate SameDecision(p: seq<Stmt>, q: seq<Stmt>, key: NominatorKey) {
    LastStatus(p, key) == LastStatus(q, key)
  }

  /** The latest attempts of two schedules give every nominator the same status at every height. */
  ghost predicate SameDecisions(a: seq<Ran<Stmt>>, b: seq<Ran<Stmt>>) {
    forall n: nat, key :: SameDecision(Attempted(a, n), Attempted(b, n), key)
  }

  lemma {:induction false} OwnedRow(trace: seq<Ran<Stmt>>, key: NominatorKey)
    requires IsSchedule(trace) && RunsBlockPrograms(trace) && AllComplete(trace)
    requires key in TablesAfter(trace).nominators && Owned(trace, key)
    ensures var row := TablesAfter(trace).nominators[key];
            LastStatus(Attempted(trace, row.height), key) == Some(row.status)
  {
    RowIsNewest(trace, key);
    assert Complete(trace, TablesAfter(trace).nominators[key].height);
  }

  /** What a height's completed attempt writes is in the table at that height or a greater one. */
  lemma {:induction false} WrittenIsCovered(trace: seq<Ran<Stmt>>, n: nat, key: NominatorKey)
    requires IsSchedule(trace) && RunsBlockPrograms(trace) && AllComplete(trace)
    requires LastStatus(Attempted(trace, n), key).Some?
    ensures key in TablesAfter(trace).nominators && n <= TablesAfter(trace).nominators[key].height
  {
    var i := LastStatusIsSet(Attempted(trace, n), key);
    assert Complete(trace, n);
    ExecutedWasRun(trace, n, i);
    RowIsNewest(trace, key);
    assert Upserts(Ran(n, i, Attempted(trace, n)), key);
  }

  lemma {:induction false} SameRow(a: seq<Ran<Stmt>>, b: seq<Ran<Stmt>>, key: NominatorKey)
    requires IsSchedule(a) && RunsBlockPrograms(a) && AllComplete(a) && AllOwned(a)
    requires IsSchedule(b) && RunsBlockPrograms(b) && AllComplete(b) && AllOwned(b)
    requires SameDecisions(a, b) && key in TablesAfter(a).nominators
    ensures key in TablesAfter(b).nominators
    ensures TablesAfter(a).nominators[key] == TablesAfter(b).nominators[key]
  {
    var h := TablesAfter(a).nominators[key].height;
    assert Owned(a, key);
    OwnedRow(a, key);
    assert SameDecision(Attempted(a, h), Attempted(b, h), key);
    WrittenIsCovered(b, h, key);
    var k := TablesAfter(b).nominators[key].height;
    assert Owned(b, key);
    OwnedRow(b, key);
    assert SameDecision(Attempted(a, k), Attempted(b, k), key);
    WrittenIsCovered(a, k, key);
  }

  /**
   Two complete schedules leave the same nominators table when their completed attempts decide the
   same and no abandoned attempt's write has outlived them, whatever the interleaving and however
   many attempts were abandoned on the way.
   */
  lemma {:induction false} NominatorsConverge(a: seq<Ran<Stmt>>, b: seq<Ran<Stmt>>)
    requires IsSchedule(a) && RunsBlockPrograms(a) && AllComplete(a) && AllOwned(a)
    requires IsSchedule(b) && RunsBlockPrograms(b) && AllComplete(b) && AllOwned(b)
    requires SameDecisions(a, b)
    ensures TablesAfter(a).nominators == TablesAfter(b).nominators
  {
    var left, right := TablesAfter(a).nominators, TablesAfter(b).nominators;
    forall key | key in left
      ensures key in right && left[key] == right[key]
    {
      SameRow(a, b, key);
    }
    forall n: nat, key
      ensures SameDecision(Attempted(b, n), Attempted(a, n), key)
    {
      assert SameDecision(Attempted(a, n), Attempted(b, n), key);
    }
    forall key | key in right
      ensures key in left
    {
      SameRow(b, a, key);
    }
  }

  // Processing one by one

  /** All statements of one attempt, in order. */
  function Whole<T>(n: nat, program: seq<T>, length: nat): (trace: seq<Ran<T>>)
    requires length <= |program|
    ensures |trace| == length && forall i :: 0 <= i < length ==> trace[i] == Ran(n, i, program)
  {
    seq(length, i requires 0 <= i < length => Ran(n, i, program))
  }

  /** One attempt per height, one after the other in ascending order, each in full. */
  function OneByOne<T>(programs: seq<seq<T>>): seq<Ran<T>> {
    if programs == [] then []
    else
      var n := |programs| - 1;
      OneByOne(programs[..n]) + Whole(n, programs[n], |programs[n]|)
  }

  /** The latest attempts of the heights below `top`. */
  function LatestAttempts<T>(trace: seq<Ran<T>>, top: nat): (programs: seq<seq<T>>)
    ensures |programs| == top && forall n :: 0 <= n < top ==> programs[n] == Attempted(trace, n)
  {
    seq(top, n requires 0 <= n => Attempted(trace, n))
  }

  lemma {:induction false} OneMoreRan<T>(trace: seq<Ran<T>>, ran: Ran<T>, k: nat)
    requires IsSchedule(trace) && MayRun(trace, ran)
    ensures IsSchedule(trace + [ran])
    ensures Latest(trace + [ran], k) == if k == ran.block then Some(ran) else Latest(trace, k)
  {
    assert (trace + [ran])[..|trace|] == trace;
  }

  lemma WholeOneMore<T>(trace: seq<Ran<T>>, n: nat, program: seq<T>, length: nat)
    requires 0 < length <= |program|
    ensures trace + Whole(n, program, length) == trace + Whole(n, program, length - 1) + [Ran(n, length - 1, program)]
  {
  }

  lemma {:induction false} WholeIsSchedule<T>(trace: seq<Ran<T>>, n: nat, program: seq<T>, length: nat, k: nat)
    requires IsSchedule(trace) && length <= |program|
    ensures IsSchedule(trace + Whole(n, program, length))
    ensures Latest(trace + Whole(n, program, length), k)
            == if k == n && length > 0 then Some(Ran(n, length - 1, program)) else Latest(trace, k)
    decreases length
  {
    if length == 0 {
      assert trace + Whole(n, program, 0) == trace;
    } else {
      WholeIsSchedule(trace, n, program, length - 1, k);
      WholeIsSchedule(trace, n, program, length - 1, n);
      WholeOneMore(trace, n, program, length);
      OneMoreRan(trace + Whole(n, program, length - 1), Ran(n, length - 1, program), k);
    }
  }

  /** What `OneByOne` runs last for a height. */
  function LastOf<T>(programs: seq<seq<T>>, k: nat): Option<Ran<T>> {
    if k < |programs| && programs[k] != [] then Some(Ran(k, |programs[k]| - 1, programs[k])) else None
  }

  lemma {:induction false} AppendAttempt<T>(
    below: seq<Ran<T>>, programs: seq<seq<T>>, all: seq<Ran<T>>, k: nat)
    requires programs != [] && IsSchedule(below)
    requires Latest(below, |programs| - 1) == None
    requires Latest(below, k) == LastOf(programs[..|programs| - 1], k)
    requires all == below + Whole(|programs| - 1, programs[|programs| - 1], |programs[|programs| - 1]|)
    ensures IsSchedule(all) && Latest(all, k) == LastOf(programs, k)
  {
    var n := |programs| - 1;
    WholeIsSchedule(below, n, programs[n], |programs[n]|, k);
  }

  lemma {:induction false} OneByOneIsSchedule<T>(programs: seq<seq<T>>, k: nat)
    ensures IsSchedule(OneByOne(programs)) && Latest(OneByOne(programs), k) == LastOf(programs, k)
  {
    if programs != [] {
      var n := |programs| - 1;
      OneByOneIsSchedule(programs[..n], k);
      OneByOneIsSchedule(programs[..n], n);
      AppendAttempt(OneByOne(programs[..n]), programs, OneByOne(programs), k);
    }
  }

  lemma {:induction false} OneByOneRuns<T>(programs: seq<seq<T>>, ran: Ran<T>)
    requires ran in OneByOne(programs)
    ensures ran.block < |programs| && ran.program == programs[ran.block] && ran.program != []
  {
    var n := |programs| - 1;
    var below, whole := OneByOne(programs[..n]), Whole(n, programs[n], |programs[n]|);
    assert OneByOne(programs) == below + whole;
    if ran in below {
      OneByOneRuns(programs[..n], ran);
    } else {
      assert ran in whole;
    }
  }

  lemma {:induction false} AllRunBlockPrograms(trace: seq<Ran<Stmt>>)
    requires forall ran | ran in trace :: IsBlockProgram(ran.program, ran.block)
    ensures RunsBlockPrograms(trace)
  {
    if trace != [] {
      var init, last := trace[..|trace| - 1], trace[|trace| - 1];
      assert trace == init + [last];
      assert last in trace;
      AllRunBlockPrograms(init);
    }
  }

  lemma {:induction false} OneByOneRunsBlockPrograms(trace: seq<Ran<Stmt>>, top: nat)
    requires IsSchedule(trace) && RunsBlockPrograms(trace)
    ensures RunsBlockPrograms(OneByOne(LatestAttempts(trace, top)))
  {
    var sequential := OneByOne(LatestAttempts(trace, top));
    forall ran | ran in sequential
      ensures IsBlockProgram(ran.program, ran.block)
    {
      OneByOneRuns(LatestAttempts(trace, top), ran);
      LatestWasRun(trace, ran.block);
      RanBlockProgram(trace, Latest(trace, ran.block).value);
    }
    AllRunBlockPrograms(sequential);
  }

  /** Every height the schedule has started is below `top`. */
  ghost predicate StartsBelow<T>(trace: seq<Ran<T>>, top: nat) {
    forall n: nat | Started(trace, n) :: n < top
  }

  lemma {:induction false} OneByOneAttempts(trace: seq<Ran<Stmt>>, top: nat, n: nat)
    requires IsSchedule(trace) && StartsBelow(trace, top)
    ensures IsSchedule(OneByOne(LatestAttempts(trace, top)))
    ensures Attempted(OneByOne(LatestAttempts(trace, top)), n) == Attempted(trace, n)
    ensures Complete(OneByOne(LatestAttempts(trace, top)), n)
  {
    OneByOneIsSchedule(LatestAttempts(trace, top), n);
    if Started(trace, n) {
      LatestWasRun(trace, n);
    }
  }

  lemma {:induction false} OneByOneOwns(trace: seq<Ran<Stmt>>, top: nat, key: NominatorKey)
    requires IsSchedule(trace) && RunsBlockPrograms(trace) && StartsBelow(trace, top)
    ensures Owned(OneByOne(LatestAttempts(trace, top)), key)
  {
    var sequential := OneByOne(LatestAttempts(trace, top));
    if key in TablesAfter(sequential).nominators {
      OneByOneRunsBlockPrograms(trace, top);
      var h := TablesAfter(sequential).nominators[key].height;
      OneByOneAttempts(trace, top, h);
      RowIsNewest(sequential, key);
      var ran :| ran in sequential && Upserts(ran, key) && ran.block == h;
      OneByOneRuns(LatestAttempts(trace, top), ran);
      LastStatusFound(ran.program, key, ran.index);
    }
  }

  /** One by one, every height has one attempt, which owns what it writes. */
  lemma {:induction false} OneByOneOwnsAll(trace: seq<Ran<Stmt>>, top: nat)
    requires IsSchedule(trace) && RunsBlockPrograms(trace) && StartsBelow(trace, top)
    ensures IsSchedule(OneByOne(LatestAttempts(trace, top)))
    ensures RunsBlockPrograms(OneByOne(LatestAttempts(trace, top)))
    ensures AllComplete(OneByOne(LatestAttempts(trace, top))) && AllOwned(OneByOne(LatestAttempts(trace, top)))
    ensures forall n: nat :: Attempted(OneByOne(LatestAttempts(trace, top)), n) == Attempted(trace, n)
  {
    var sequential := OneByOne(LatestAttempts(trace, top));
    OneByOneAttempts(trace, top, 0);
    OneByOneRunsBlockPrograms(trace, top);
    forall n: nat
      ensures Attempted(sequential, n) == Attempted(trace, n) && Complete(sequential, n)
    {
      OneByOneAttempts(trace, top, n);
    }
    forall key
      ensures Owned(sequential, key)
    {
      OneByOneOwns(trace, top, key);
    }
  }

  /**
   A complete schedule's nominators are those of processing its completed attempts one by one in
   ascending order, if and only if no abandoned attempt's write has outlived them.
   */
  lemma {:induction false} NominatorsAsIfOneByOne(trace: seq<Ran<Stmt>>, top: nat)
    requires IsSchedule(trace) && RunsBlockPrograms(trace) && AllComplete(trace) && StartsBelow(trace, top)
    ensures TablesAfter(trace).nominators == TablesAfter(OneByOne(LatestAttempts(trace, top))).nominators
            <==> AllOwned(trace)
  {
    var sequential := OneByOne(LatestAttempts(trace, top));
    OneByOneOwnsAll(trace, top);
    if AllOwned(trace) {
      NominatorsConverge(trace, sequential);
    }
    if TablesAfter(trace).nominators == TablesAfter(sequential).nominators {
      forall key
        ensures Owned(trace, key)
      {
        assert Owned(sequential, key);
      }
    }
  }

  // Exactly when all schedules over given attempts converge

  /** Attempts that may be made: a height and the statements tried for it. */
  type Attempts = iset<(nat, seq<Stmt>)>

  ghost predicate AreBlockPrograms(attempts: Attempts) {
    forall n, p | (n, p) in attempts :: IsBlockProgram(p, n)
  }

  ghost predicate MadeFrom(trace: seq<Ran<Stmt>>, attempts: Attempts) {
    forall ran | ran in trace :: (ran.block, ran.program) in attempts
  }

  /** Whatever the interleaving and the abandoned attempts, the same completed heights give the same table. */
  ghost predicate AlwaysConverges(attempts: Attempts) {
    forall a: seq<Ran<Stmt>>, b: seq<Ran<Stmt>>
      | CompletedFrom(a, attempts) && CompletedFrom(b, attempts) && SameStarted(a, b) ::
      TablesAfter(a).nominators == TablesAfter(b).nominators
  }

  ghost predicate CompletedFrom(trace: seq<Ran<Stmt>>, attempts: Attempts) {
    IsSchedule(trace) && AllComplete(trace) && MadeFrom(trace, attempts)
  }

  /** All attempts that may be made at one height decide each nominator's status alike. */
  ghost predicate AttemptsDecideAlike(attempts: Attempts) {
    forall n, p, q, key | (n, p) in attempts && (n, q) in attempts :: SameDecision(p, q, key)
  }

  lemma {:induction false} AlikeAreOwned(trace: seq<Ran<Stmt>>, attempts: Attempts)
    requires AreBlockPrograms(attempts) && AttemptsDecideAlike(attempts) && CompletedFrom(trace, attempts)
    ensures RunsBlockPrograms(trace) && AllOwned(trace)
  {
    AllRunBlockPrograms(trace);
    forall key
      ensures Owned(trace, key)
    {
      if key in TablesAfter(trace).nominators {
        RowIsNewest(trace, key);
        var ran :| ran in trace && Upserts(ran, key) && ran.block == TablesAfter(trace).nominators[key].height;
        LastStatusFound(ran.program, key, ran.index);
        RunWasStarted(trace, ran);
        LatestWasRun(trace, ran.block);
        assert SameDecision(ran.program, Attempted(trace, ran.block), key);
      }
    }
  }

  lemma {:induction false} AlikeDecideTheSame(a: seq<Ran<Stmt>>, b: seq<Ran<Stmt>>, attempts: Attempts)
    requires AttemptsDecideAlike(attempts)
    requires CompletedFrom(a, attempts) && CompletedFrom(b, attempts) && SameStarted(a, b)
    ensures SameDecisions(a, b)
  {
    forall n: nat, key
      ensures SameDecision(Attempted(a, n), Attempted(b, n), key)
    {
      assert Started(a, n) <==> Started(b, n);
      if Started(a, n) {
        LatestWasRun(a, n);
        LatestWasRun(b, n);
      }
    }
  }

  lemma {:induction false} WholeAlone<T>(n: nat, program: seq<T>, k: nat)
    requires program != []
    ensures IsSchedule(Whole(n, program, |program|))
    ensures Latest(Whole(n, program, |program|), k)
            == if k == n then Some(Ran(n, |program| - 1, program)) else None
    ensures Complete(Whole(n, program, |program|), k)
  {
    assert [] + Whole(n, program, |program|) == Whole(n, program, |program|);
    WholeIsSchedule([], n, program, |program|, k);
  }

  /** A single attempt, run in full, is a complete schedule that started only its height. */
  lemma {:induction false} SingleAttempt(n: nat, program: seq<Stmt>, attempts: Attempts)
    requires AreBlockPrograms(attempts) && (n, program) in attempts
    ensures program != []
    ensures CompletedFrom(Whole(n, program, |program|), attempts)
    ensures forall k: nat :: Started(Whole(n, program, |program|), k) <==> k == n
  {
    assert IsBlockProgram(program, n);
    WholeAlone(n, program, n);
    forall k: nat
      ensures Started(Whole(n, program, |program|), k) <==> k == n
      ensures Complete(Whole(n, program, |program|), k)
    {
      WholeAlone(n, program, k);
    }
  }

  /** Its table shows what it decides. */
  lemma {:induction false} SingleAttemptRow(n: nat, program: seq<Stmt>, attempts: Attempts, key: NominatorKey)
    requires AreBlockPrograms(attempts) && (n, program) in attempts
    ensures Lookup(TablesAfter(Whole(n, program, |program|)).nominators, key)
            == match LastStatus(program, key)
               case None => None
               case Some(status) => Some(NominatorRow(status, n))
  {
    SingleAttempt(n, program, attempts);
    AllRunBlockPrograms(Whole(n, program, |program|));
    WholeAlone(n, program, n);
    SingleRow(n, program, Whole(n, program, |program|), key);
  }

  lemma {:induction false} SingleRow(n: nat, program: seq<Stmt>, trace: seq<Ran<Stmt>>, key: NominatorKey)
    requires IsSchedule(trace) && RunsBlockPrograms(trace) && AllComplete(trace)
    requires forall ran | ran in trace :: ran.block == n && ran.program == program
    requires Attempted(trace, n) == program
    ensures Lookup(TablesAfter(trace).nominators, key)
            == match LastStatus(program, key)
               case None => None
               case Some(status) => Some(NominatorRow(status, n))
  {
    RowIsNewest(trace, key);
    if LastStatus(program, key).Some? {
      WrittenIsCovered(trace, n, key);
      assert Complete(trace, n);
    } else if key in TablesAfter(trace).nominators {
      var ran :| ran in trace && Upserts(ran, key) && ran.block == TablesAfter(trace).nominators[key].height;
      LastStatusFound(ran.program, key, ran.index);
    }
  }

  /**
   Schedules over given attempts always converge if and only if the attempts that may be made at one
   height decide alike.
   */
  lemma {:induction false} ConvergesIffDecidedAlike(attempts: Attempts)
    requires AreBlockPrograms(attempts)
    ensures AlwaysConverges(attempts) <==> AttemptsDecideAlike(attempts)
  {
    if AttemptsDecideAlike(attempts) {
      forall a: seq<Ran<Stmt>>, b: seq<Ran<Stmt>>
        | CompletedFrom(a, attempts) && CompletedFrom(b, attempts) && SameStarted(a, b)
        ensures TablesAfter(a).nominators == TablesAfter(b).nominators
      {
        AlikeAreOwned(a, attempts);
        AlikeAreOwned(b, attempts);
        AlikeDecideTheSame(a, b, attempts);
        NominatorsConverge(a, b);
      }
    }
    if AlwaysConverges(attempts) {
      forall n, p, q, key | (n, p) in attempts && (n, q) in attempts
        ensures SameDecision(p, q, key)
      {
        SingleAttempt(n, p, attempts);
        SingleAttempt(n, q, attempts);
        SingleAttemptRow(n, p, attempts, key);
        SingleAttemptRow(n, q, attempts, key);
        var a, b := Whole(n, p, |p|), Whole(n, q, |q|);
        assert SameStarted(a, b);
        assert Lookup(TablesAfter(a).nominators, key) == Lookup(TablesAfter(b).nominators, key);
      }
    }
  }
}
