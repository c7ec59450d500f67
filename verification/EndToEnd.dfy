/**
 The follower's session and the indexing loop run in lock-step: each announced block is imported, and
 the message it leads to, if any, is handled before the next block is announced.
 */
module EndToEnd {
  import opened Chain
  import opened Follower
  import opened IndexerLoop
  import opened Lockstep
  import opened Messages
  import opened Node
  import opened Outcomes
  import opened Processor
  import opened Runs
  import opened Schedules
  import opened Tables

  /**
   Up to the checkpoint, every height has the rows of the block on the path to `best`, as the attempt that
   last finished there read them.
   */
  ghost predicate HasRowsOfPath(tree: Headers, ledger: Ledger, best: Hash, s: State<Stmt>, t: Tables)
    requires IsTree(tree) && best in tree && Checkpoint(s) <= tree[best].number
  {
    forall n | 1 <= n <= Checkpoint(s) ::
      && Path(tree, best)[n] in ledger && n in s.done
      && HoldsRows(t, ledger[Path(tree, best)[n]], s.done[n], n)
  }

  /** An index that agrees with the best path and is in order has exactly that path's rows. */
  lemma {:induction false} RowsOfBestPath(tree: Headers, ledger: Ledger, best: Hash, s: State<Stmt>)
    requires IsTree(tree) && best in tree && Agrees(tree, best, s) && InOrder(ledger, s)
    ensures HasRowsOfPath(tree, ledger, best, s, TablesAfter(s.trace))
  {
    forall n | 1 <= n <= Checkpoint(s)
      ensures Path(tree, best)[n] in ledger && n in s.done
      ensures HoldsRows(TablesAfter(s.trace), ledger[Path(tree, best)[n]], s.done[n], n)
    {
      assert Settled(s, n);
      SettledHasRows(ledger, s, n);
    }
  }

  /** Whichever handlings, they read blocks of the ledger. */
  ghost predicate ReadLedger(ledger: Ledger, handlings: seq<Handling<Stmt>>) {
    forall handling | handling in handlings :: StakingSteps(ledger, handling.steps)
  }

  lemma {:induction false} StakedAfter(
    ledger: Ledger, s: State<Stmt>, messages: seq<BlocksExt>, handlings: seq<Handling<Stmt>>)
    requires |messages| == |handlings| && Staked(ledger, s) && ReadLedger(ledger, handlings)
    requires IndexAfter(s, messages, handlings).Some?
    ensures Staked(ledger, IndexAfter(s, messages, handlings).value)
  {
    if messages != [] {
      var k := |messages| - 1;
      StakedAfter(ledger, s, messages[..k], handlings[..k]);
      var before := IndexAfter(s, messages[..k], handlings[..k]).value;
      var received := Apply(handlings[k].parallel, before, Receive(Numbers(messages[k].blocks), true));
      StakedStep(ledger, handlings[k].parallel, before, Receive(Numbers(messages[k].blocks), true));
      assert handlings[k] in handlings;
      StakedRun(ledger, handlings[k].parallel, received, handlings[k].steps);
    }
  }

  /**
   The tables follow the best path. In lock-step, over any extensions and reorgs of which none is
   missed, every height up to the checkpoint has exactly the deposit and withdrawal rows of the block
   on the best path: the rows of retracted blocks are gone.
   */
  lemma {:induction false} TablesFollowBestPath(
    tree: Headers, ledger: Ledger, best: Hash, s: State<Stmt>, messages: seq<BlocksExt>,
    handlings: seq<Handling<Stmt>>)
    requires IsTree(tree) && FollowsFrom(tree, best, messages) && |messages| == |handlings|
    requires Agrees(tree, best, s) && InOrder(ledger, s)
    requires AgainstCanonical(tree, best, messages, handlings) && ReadLedger(ledger, handlings)
    requires IndexAfter(s, messages, handlings).Some? && NoneMissed(s, messages, handlings)
    ensures var tip, after := Tip(best, messages), IndexAfter(s, messages, handlings).value;
            && tip in tree && Checkpoint(after) <= tree[tip].number
            && HasRowsOfPath(tree, ledger, tip, after, TablesAfter(after.trace))
  {
    IndexFollowsBestPath(tree, best, s, messages, handlings);
    StakedAfter(ledger, s, messages, handlings);
    RowsOfBestPath(tree, ledger, Tip(best, messages), IndexAfter(s, messages, handlings).value);
  }

  // The two loops as code

  /** An announced block, the node's answers, and what happens while the message is handled, if there is one. */
  datatype Announcement = Announcement(header: Header, node: Node, course: IndexerLoop.Course)

  /** Still in step; out of step because a message was missed; or ended, with the session or the process. */
  datatype Outcome = InStep | OutOfStep | Ended

  /** What is fetched up to the block's height is on the path to it. */
  ghost predicate FetchesPath(tree: Headers, ledger: Ledger, to: Hash, course: IndexerLoop.Course)
    requires IsTree(tree) && to in tree
  {
    forall n: nat, step: nat | n <= tree[to].number && course.fetch(n, step).Some? ::
      && StakingAttempt(ledger, n, course.fetch(n, step).value)
      && course.fetch(n, step).value.hash == Path(tree, to)[n]
  }

  ghost predicate TrueAnnouncement(tree: Headers, ledger: Ledger, a: Announcement)
    requires IsTree(tree)
  {
    TrueItem(tree, Announced(a.header, a.node)) && FetchesPath(tree, ledger, a.header.hash, a.course)
  }

  /** The follower's view and the index. */
  datatype Moment = Moment(view: View, index: State<Stmt>)

  /** The index agrees with the best path, and everything up to the checkpoint was processed in full. */
  ghost predicate InStepWith(tree: Headers, ledger: Ledger, best: Hash, index: State<Stmt>)
    requires IsTree(tree) && best in tree
  {
    Agrees(tree, best, index) && InOrder(ledger, index)
  }

  /** What a message handled to the end has begun is on the path to the new best block, and in the ledger. */
  lemma {:induction false} HandledFromPath(
    tree: Headers, ledger: Ledger, to: Hash, parallel: nat, before: State<Stmt>, numbers: seq<nat>,
    course: IndexerLoop.Course, steps: seq<Step<Stmt>>, after: State<Stmt>)
    requires IsTree(tree) && to in tree && FetchesPath(tree, ledger, to, course)
    requires numbers != [] && before.phase.Idle? && RangeOf(numbers, Checkpoint(before)).to == tree[to].number
    requires Taken(parallel, before, numbers, true, course, true, steps, after)
    ensures StakingSteps(ledger, steps) && Follow(tree, to, steps)
    ensures Handles(parallel, before, numbers, steps) && AfterMessage(parallel, before, numbers, steps) == after
  {
    FinishedIsQuiet(parallel, before, numbers, true, course, steps, after);
  }

  /** Handling the message of a move keeps the index in order, and in step unless the message is missed. */
  lemma {:induction false} MoveHandled(
    tree: Headers, ledger: Ledger, from: Hash, to: Hash, parallel: nat, before: State<Stmt>,
    course: IndexerLoop.Course, steps: seq<Step<Stmt>>, after: State<Stmt>)
    requires IsTree(tree) && from in tree && to in tree && MessageFor(tree, from, to).Some?
    requires InStepWith(tree, ledger, from, before) && FetchesPath(tree, ledger, to, course)
    requires Numbers(MessageFor(tree, from, to).value.blocks) != []
    requires Taken(parallel, before, Numbers(MessageFor(tree, from, to).value.blocks), true, course, true, steps, after)
    ensures InOrder(ledger, after)
    ensures Agrees(tree, to, after) <==> !Missed(MessageFor(tree, from, to).value, before)
  {
    var numbers := Numbers(MessageFor(tree, from, to).value.blocks);
    RangeOfMessage(tree, from, to, Checkpoint(before));
    HandledFromPath(tree, ledger, to, parallel, before, numbers, course, steps, after);
    AgreesUnlessMissed(tree, from, to, parallel, before, steps);
    HandledInOrder(ledger, parallel, before, numbers, steps);
  }

  lemma {:induction false} HandledInOrder(
    ledger: Ledger, parallel: nat, before: State<Stmt>, numbers: seq<nat>, steps: seq<Step<Stmt>>)
    requires InOrder(ledger, before) && StakingSteps(ledger, steps) && Handles(parallel, before, numbers, steps)
    ensures InOrder(ledger, AfterMessage(parallel, before, numbers, steps))
  {
    HandledMessageSettles(parallel, before, numbers, steps);
    StakedStep(ledger, parallel, before, Receive(numbers, true));
    StakedRun(ledger, parallel, Apply(parallel, before, Receive(numbers, true)), steps);
  }

  /** What the message of a move comes to; `Ended` exactly when its course ends the process. */
  ghost predicate Moved(
    parallel: nat, message: BlocksExt, before: State<Stmt>, course: IndexerLoop.Course, outcome: Outcome,
    steps: seq<Step<Stmt>>, after: State<Stmt>)
  {
    && message.blocks != [] && before.phase.Idle?
    && Taken(parallel, before, Numbers(message.blocks), true, course, !outcome.Ended?, steps, after)
    && (outcome.OutOfStep? <==> !outcome.Ended? && Missed(message, before))
  }

  /** The message of a move, handled by the indexing loop. */
  method HandleMove(
    ghost tree: Headers, ghost ledger: Ledger, ghost from: Hash, ghost to: Hash, message: BlocksExt,
    indexer: Indexer, course: IndexerLoop.Course)
    returns (outcome: Outcome, ghost steps: seq<Step<Stmt>>)
    requires IsTree(tree) && from in tree && to in tree && MessageFor(tree, from, to) == Some(message)
    requires indexer.Valid() && indexer.parallel > 0 && InStepWith(tree, ledger, from, indexer.AtRest())
    requires FetchesPath(tree, ledger, to, course)
    modifies indexer`trace, indexer`done, indexer.db`metadata
    modifies indexer.db`deposits, indexer.db`withdrawals, indexer.db`nominators, indexer.db`operators
    modifies indexer.db`sharePrices
    ensures indexer.Valid()
    ensures Moved(indexer.parallel, message, old(indexer.AtRest()), course, outcome, steps, indexer.AtRest())
    ensures outcome.InStep? ==> InStepWith(tree, ledger, to, indexer.AtRest())
    ensures outcome.OutOfStep? ==> !Agrees(tree, to, indexer.AtRest())
  {
    ghost var before := indexer.AtRest();
    RangeOfMessage(tree, from, to, Checkpoint(before));
    var last := indexer.ReadCheckpoint(true);
    var finished;
    finished, steps := indexer.HandleMessage(Numbers(message.blocks), true, course);
    if !finished {
      return Ended, steps;
    }
    MoveHandled(tree, ledger, from, to, indexer.parallel, before, course, steps, indexer.AtRest());
    var missed := |message.blocks| == 1 && message.Depth() > 0 && message.blocks[0].number <= last;
    outcome := if missed then OutOfStep else InStep;
  }

  /**
   What one announcement comes to. It ends the run exactly when its import fails or the handling of its
   message is cut short, and else the follower has imported the block and the message, if there is one,
   has been handled to the end.
   */
  ghost predicate Came(
    tree: Headers, parallel: nat, before: Moment, a: Announcement, outcome: Outcome, steps: seq<Step<Stmt>>,
    after: Moment)
  {
    && IsView(tree, before.view) && a.header.hash in tree && tree[a.header.hash] == a.header
    && if !ImportSucceeds(tree, before.view, a.header, a.node) then
         outcome.Ended? && steps == [] && after.index == before.index && after.view.best == before.view.best
       else
         && after.view == Imported(tree, before.view, a.header, a.node)
         && match MessageOf(tree, before.view.best, a.header, a.node)
            case None => outcome.InStep? && steps == [] && after.index == before.index
            case Some(message) => Moved(parallel, message, before.index, a.course, outcome, steps, after.index)
  }

  /** One announced block, followed and indexed. */
  method Step(session: Session, indexer: Indexer, ghost ledger: Ledger, a: Announcement)
    returns (outcome: Outcome, ghost steps: seq<Step<Stmt>>)
    requires session.Valid() && TrueAnnouncement(session.tree, ledger, a)
    requires indexer.Valid() && indexer.parallel > 0
    requires InStepWith(session.tree, ledger, session.currentBestBlock.hash, indexer.AtRest())
    modifies session`currentBestBlock, session`sent, session`line, session.headerMetadata
    modifies indexer`trace, indexer`done, indexer.db`metadata
    modifies indexer.db`deposits, indexer.db`withdrawals, indexer.db`nominators, indexer.db`operators
    modifies indexer.db`sharePrices
    ensures session.Valid() && indexer.Valid()
    ensures Came(session.tree, indexer.parallel, old(Moment(session.Now(), indexer.AtRest())), a, outcome, steps,
                 Moment(session.Now(), indexer.AtRest()))
    ensures outcome.InStep? ==> InStepWith(session.tree, ledger, session.currentBestBlock.hash, indexer.AtRest())
    ensures outcome.OutOfStep? ==> !Agrees(session.tree, session.currentBestBlock.hash, indexer.AtRest())
  {
    ghost var from := session.currentBestBlock.hash;
    var already := |session.sent|;
    steps := [];
    var imported := session.ImportBlock(a.header, a.node);
    if imported.Err? {
      return Ended, [];
    }
    if |session.sent| == already {
      return InStep, [];
    }
    outcome, steps :=
      HandleMove(session.tree, ledger, from, a.header.hash, session.sent[already], indexer, a.course);
  }

  /** How an announcement was taken, from one moment to the next. */
  datatype Taking = Taking(
    before: Moment, announcement: Announcement, outcome: Outcome, steps: seq<Step<Stmt>>, after: Moment)

  ghost predicate IsTaking(tree: Headers, parallel: nat, taking: Taking) {
    Came(tree, parallel, taking.before, taking.announcement, taking.outcome, taking.steps, taking.after)
  }

  /** These announcements were taken one after the other, all but the last one in step. */
  ghost predicate TakenInTurn(
    tree: Headers, parallel: nat, start: Moment, announcements: seq<Announcement>, takings: seq<Taking>, now: Moment)
  {
    && |takings| == |announcements|
    && if takings == [] then now == start
       else
         var k := |takings| - 1;
         && takings[k].announcement == announcements[k] && takings[k].after == now
         && IsTaking(tree, parallel, takings[k])
         && AllInStep(takings[..k])
         && TakenInTurn(tree, parallel, start, announcements[..k], takings[..k], takings[k].before)
  }

  ghost predicate AllInStep(takings: seq<Taking>) {
    forall taking | taking in takings :: taking.outcome.InStep?
  }

  lemma OneMoreTaking(
    tree: Headers, parallel: nat, start: Moment, announcements: seq<Announcement>, takings: seq<Taking>, taking: Taking)
    requires TakenInTurn(tree, parallel, start, announcements, takings, taking.before) && AllInStep(takings)
    requires IsTaking(tree, parallel, taking)
    ensures TakenInTurn(tree, parallel, start, announcements + [taking.announcement], takings + [taking], taking.after)
  {
    assert (takings + [taking])[..|takings|] == takings;
    assert (announcements + [taking.announcement])[..|takings|] == announcements;
  }

  lemma PrefixOneMore<T>(s: seq<T>, i: nat)
    requires i < |s|
    ensures s[i] in s && s[..i + 1] == s[..i] + [s[i]]
  {
  }

  /** The next announcement, after those that were taken in step. */
  method TakeNext(
    session: Session, indexer: Indexer, ghost ledger: Ledger, ghost start: Moment,
    ghost earlier: seq<Announcement>, ghost takings: seq<Taking>, a: Announcement)
    returns (outcome: Outcome, ghost longer: seq<Taking>)
    requires session.Valid() && TrueAnnouncement(session.tree, ledger, a)
    requires indexer.Valid() && indexer.parallel > 0
    requires InStepWith(session.tree, ledger, session.currentBestBlock.hash, indexer.AtRest())
    requires TakenInTurn(session.tree, indexer.parallel, start, earlier, takings,
                         Moment(session.Now(), indexer.AtRest()))
    requires AllInStep(takings)
    modifies session`currentBestBlock, session`sent, session`line, session.headerMetadata
    modifies indexer`trace, indexer`done, indexer.db`metadata
    modifies indexer.db`deposits, indexer.db`withdrawals, indexer.db`nominators, indexer.db`operators
    modifies indexer.db`sharePrices
    ensures session.Valid() && indexer.Valid()
    ensures TakenInTurn(session.tree, indexer.parallel, start, earlier + [a], longer,
                        Moment(session.Now(), indexer.AtRest()))
    ensures |longer| == |takings| + 1 && longer[|takings|].outcome == outcome
    ensures outcome.InStep? ==> AllInStep(longer)
    ensures outcome.InStep? ==> InStepWith(session.tree, ledger, session.currentBestBlock.hash, indexer.AtRest())
    ensures outcome.OutOfStep? ==> !Agrees(session.tree, session.currentBestBlock.hash, indexer.AtRest())
  {
    ghost var before := Moment(session.Now(), indexer.AtRest());
    ghost var steps;
    outcome, steps := Step(session, indexer, ledger, a);
    ghost var taking := Taking(before, a, outcome, steps, Moment(session.Now(), indexer.AtRest()));
    OneMoreTaking(session.tree, indexer.parallel, start, earlier, takings, taking);
    longer := takings + [taking];
  }

  /** The announcements in turn, up to the first that is not taken in step. */
  method FollowAll(
    session: Session, indexer: Indexer, ghost ledger: Ledger, announcements: seq<Announcement>)
    returns (outcome: Outcome, ghost takings: seq<Taking>)
    requires session.Valid() && forall a | a in announcements :: TrueAnnouncement(session.tree, ledger, a)
    requires indexer.Valid() && indexer.parallel > 0
    requires InStepWith(session.tree, ledger, session.currentBestBlock.hash, indexer.AtRest())
    modifies session`currentBestBlock, session`sent, session`line, session.headerMetadata
    modifies indexer`trace, indexer`done, indexer.db`metadata
    modifies indexer.db`deposits, indexer.db`withdrawals, indexer.db`nominators, indexer.db`operators
    modifies indexer.db`sharePrices
    ensures session.Valid() && indexer.Valid() && |takings| <= |announcements|
    ensures TakenInTurn(session.tree, indexer.parallel, old(Moment(session.Now(), indexer.AtRest())),
                        announcements[..|takings|], takings, Moment(session.Now(), indexer.AtRest()))
    ensures if outcome.InStep? then |takings| == |announcements| && AllInStep(takings)
            else takings != [] && takings[|takings| - 1].outcome == outcome
    ensures outcome.InStep? ==>
              InStepWith(session.tree, ledger, session.currentBestBlock.hash, indexer.AtRest())
    ensures outcome.OutOfStep? ==> !Agrees(session.tree, session.currentBestBlock.hash, indexer.AtRest())
  {
    takings := [];
    ghost var start := Moment(session.Now(), indexer.AtRest());
    for i := 0 to |announcements|
      invariant session.Valid() && indexer.Valid()
      invariant InStepWith(session.tree, ledger, session.currentBestBlock.hash, indexer.AtRest())
      invariant |takings| == i && AllInStep(takings)
      invariant TakenInTurn(session.tree, indexer.parallel, start, announcements[..i], takings,
                            Moment(session.Now(), indexer.AtRest()))
    {
      PrefixOneMore(announcements, i);
      outcome, takings :=
        TakeNext(session, indexer, ledger, start, announcements[..i], takings, announcements[i]);
      if !outcome.InStep? {
        return;
      }
    }
    outcome := InStep;
  }

  /**
   Any sequence of announced blocks, with any extensions, forks and reorgs. As long as the run is in
   step, all announcements have been followed and indexed, and every height up to the checkpoint has
   exactly the rows of the block on the path to the best block. It falls out of step exactly at a
   single-block reorg that is missed, and ends exactly where an import fails or the process does.
   */
  method FollowAndIndex(
    session: Session, indexer: Indexer, ghost ledger: Ledger, announcements: seq<Announcement>)
    returns (outcome: Outcome, ghost takings: seq<Taking>)
    requires session.Valid() && forall a | a in announcements :: TrueAnnouncement(session.tree, ledger, a)
    requires indexer.Valid() && indexer.parallel > 0
    requires InStepWith(session.tree, ledger, session.currentBestBlock.hash, indexer.AtRest())
    modifies session`currentBestBlock, session`sent, session`line, session.headerMetadata
    modifies indexer`trace, indexer`done, indexer.db`metadata
    modifies indexer.db`deposits, indexer.db`withdrawals, indexer.db`nominators, indexer.db`operators
    modifies indexer.db`sharePrices
    ensures session.Valid() && indexer.Valid() && |takings| <= |announcements|
    ensures TakenInTurn(session.tree, indexer.parallel, old(Moment(session.Now(), indexer.AtRest())),
                        announcements[..|takings|], takings, Moment(session.Now(), indexer.AtRest()))
    ensures if outcome.InStep? then |takings| == |announcements| && AllInStep(takings)
            else takings != [] && takings[|takings| - 1].outcome == outcome
    ensures outcome.InStep? ==>
              && InStepWith(session.tree, ledger, session.currentBestBlock.hash, indexer.AtRest())
              && HasRowsOfPath(session.tree, ledger, session.currentBestBlock.hash, indexer.AtRest(),
                               indexer.db.Staking())
    ensures outcome.OutOfStep? ==> !Agrees(session.tree, session.currentBestBlock.hash, indexer.AtRest())
  {
    outcome, takings := FollowAll(session, indexer, ledger, announcements);
    if outcome.InStep? {
      RowsOfBestPath(session.tree, ledger, session.currentBestBlock.hash, indexer.AtRest());
    }
  }
}
