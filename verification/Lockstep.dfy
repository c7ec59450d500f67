/**
 The follower and the indexing loop together.

 Messages are those of a follower session, each is handled before the next one is received, and the
 node's canonical chain runs through the message's new best block while it is handled.
 */
module Lockstep {
  import opened Chain
  import opened Messages
  import opened Outcomes
  import opened Processor

  function Numbers(blocks: seq<Header>): (numbers: seq<nat>)
    ensures |numbers| == |blocks| && forall i :: 0 <= i < |blocks| ==> numbers[i] == blocks[i].number
  {
    seq(|blocks|, i requires 0 <= i < |blocks| => blocks[i].number)
  }

  /** The number of the highest common ancestor. */
  ghost function Common(tree: Headers, a: Hash, b: Hash): nat
    requires IsTree(tree) && a in tree && b in tree
  {
    RouteOf(tree, a, b).CommonBlock().number
  }

  /** Up to the checkpoint, the block last processed at each height is the one on the best path. */
  ghost predicate Agrees<T>(tree: Headers, best: Hash, s: State<T>)
    requires IsTree(tree) && best in tree
  {
    && s.phase.Idle?
    && Checkpoint(s) <= tree[best].number
    && forall n | 1 <= n <= Checkpoint(s) :: n in s.done && s.done[n].hash == Path(tree, best)[n]
  }

  /** The message replaces the tip by a single block at a height the index has already processed. */
  predicate Missed<T>(message: BlocksExt, s: State<T>) {
    |message.blocks| == 1 && message.Depth() > 0 && message.blocks[0].number <= Checkpoint(s)
  }

  lemma {:induction false} SameBelowCommon(tree: Headers, from: Hash, to: Hash, n: nat)
    requires IsTree(tree) && from in tree && to in tree
    ensures Common(tree, from, to) <= tree[from].number && Common(tree, from, to) <= tree[to].number
    ensures n <= Common(tree, from, to) ==> Path(tree, from)[n] == Path(tree, to)[n]
    ensures Common(tree, from, to) < n <= tree[from].number && n <= tree[to].number ==>
              Path(tree, from)[n] != Path(tree, to)[n]
  {
    RouteParts(tree, from, to);
    if n <= tree[from].number && n <= tree[to].number {
      MeetBelowCommonLength(tree, from, to, n);
    }
  }

  /** The range a follower message leads to starts right after the common block or the checkpoint. */
  lemma {:induction false} RangeOfMessage(tree: Headers, from: Hash, to: Hash, lastProcessed: nat)
    requires IsTree(tree) && from in tree && to in tree && MessageFor(tree, from, to).Some?
    ensures var message := MessageFor(tree, from, to).value;
            var common := Common(tree, from, to);
            && |message.blocks| == tree[to].number - common >= 1
            && message.blocks[0].number == common + 1
            && tree[from].number == common + message.Depth()
            && RangeOf(Numbers(message.blocks), lastProcessed)
                 == Range(if |message.blocks| > 1 && common < lastProcessed then common + 1 else lastProcessed + 1,
                          tree[to].number)
  {
    MessageShape(tree, from, to);
    var message := MessageFor(tree, from, to).value;
    var numbers := Numbers(message.blocks);
    assert numbers[0] in numbers && numbers[|numbers| - 1] in numbers;
  }

  /** What the steps begin up to the best block's height is on the path to it. */
  ghost predicate Follow<T>(tree: Headers, best: Hash, steps: seq<Step<T>>)
    requires IsTree(tree) && best in tree
  {
    forall i | 0 <= i < |steps| && steps[i].Begin? && steps[i].n <= tree[best].number ::
      steps[i].attempt.hash == Path(tree, best)[steps[i].n]
  }

  /**
   A message that is dropped, because the loop lagged, changes nothing: an index that agrees with one
   block agrees with another if and only if their paths part above the checkpoint.
   */
  lemma {:induction false} DroppedMessage<T>(tree: Headers, was: Hash, to: Hash, s: State<T>)
    requires IsTree(tree) && was in tree && to in tree && Agrees(tree, was, s)
    ensures Agrees(tree, to, s) <==> Checkpoint(s) <= Common(tree, was, to)
  {
    SameBelowCommon(tree, was, to, 0);
    var n := Common(tree, was, to) + 1;
    if n <= Checkpoint(s) {
      SameBelowCommon(tree, was, to, n);
      assert n in s.done && s.done[n].hash == Path(tree, was)[n];
    } else {
      forall k | 1 <= k <= Checkpoint(s)
        ensures k in s.done && s.done[k].hash == Path(tree, to)[k]
      {
        SameBelowCommon(tree, was, to, k);
      }
    }
  }

  /** Redoing a range agrees with the new path if and only if it starts no higher than right after the common block. */
  lemma {:induction false} RedoneAgrees<T>(
    tree: Headers, was: Hash, to: Hash, steps: seq<Step<T>>, s: State<T>, low: nat, after: State<T>)
    requires IsTree(tree) && was in tree && to in tree && Agrees(tree, was, s)
    requires low <= Checkpoint(s) + 1 && low <= tree[to].number && Follow(tree, to, steps)
    requires Redone(steps, s.done, low, tree[to].number + 1, after.done)
    requires after.phase.Idle? && after.checkpoint == Some(tree[to].number)
    ensures Agrees(tree, to, after) <==> low <= Common(tree, was, to) + 1
  {
    SameBelowCommon(tree, was, to, 0);
    if low <= Common(tree, was, to) + 1 {
      forall n | 1 <= n <= tree[to].number
        ensures n in after.done && after.done[n].hash == Path(tree, to)[n]
      {
        SameBelowCommon(tree, was, to, n);
        if n < low {
          assert n in s.done && s.done[n].hash == Path(tree, was)[n];
        } else {
          assert Begin(n, after.done[n]) in steps;
          var i :| 0 <= i < |steps| && steps[i] == Begin(n, after.done[n]);
        }
      }
    } else {
      var n := Common(tree, was, to) + 1;
      SameBelowCommon(tree, was, to, n);
      assert n in s.done && s.done[n].hash == Path(tree, was)[n];
      assert after.done[n] == s.done[n];
    }
  }

  /**
   One message, whatever was dropped before it. The index agrees with some block `was`; after the
   message it agrees with the new best block if and only if the range it redoes starts no higher than
   right after the common block of the two.
   */
  lemma {:induction false} AgreesIffRedoneFromCommon<T>(
    tree: Headers, was: Hash, from: Hash, to: Hash, parallel: nat, s: State<T>, steps: seq<Step<T>>)
    requires IsTree(tree) && was in tree && from in tree && to in tree && MessageFor(tree, from, to).Some?
    requires Agrees(tree, was, s) && Follow(tree, to, steps)
    requires Handles(parallel, s, Numbers(MessageFor(tree, from, to).value.blocks), steps)
    ensures Agrees(tree, to, AfterMessage(parallel, s, Numbers(MessageFor(tree, from, to).value.blocks), steps))
            <==> RangeOf(Numbers(MessageFor(tree, from, to).value.blocks), Checkpoint(s)).from
                 <= Common(tree, was, to) + 1
  {
    var numbers := Numbers(MessageFor(tree, from, to).value.blocks);
    var after := AfterMessage(parallel, s, numbers, steps);
    RangeOfMessage(tree, from, to, Checkpoint(s));
    HandledMessage(parallel, s, numbers, steps);
    var low := RangeOf(numbers, Checkpoint(s)).from;
    if low > tree[to].number {
      DroppedMessage(tree, was, to, s);
    } else {
      RedoneAgrees(tree, was, to, steps, s, low, after);
    }
  }

  /**
   In lock-step: from an index that agrees with the old best path, handling the message, in whatever
   interleaving, leads to one that agrees with the new best path if and only if the message is not
   missed.
   */
  lemma {:induction false} AgreesUnlessMissed<T>(
    tree: Headers, from: Hash, to: Hash, parallel: nat, s: State<T>, steps: seq<Step<T>>)
    requires IsTree(tree) && from in tree && to in tree && MessageFor(tree, from, to).Some?
    requires Agrees(tree, from, s) && Follow(tree, to, steps)
    requires Handles(parallel, s, Numbers(MessageFor(tree, from, to).value.blocks), steps)
    ensures Agrees(tree, to, AfterMessage(parallel, s, Numbers(MessageFor(tree, from, to).value.blocks), steps))
            <==> !Missed(MessageFor(tree, from, to).value, s)
  {
    RangeOfMessage(tree, from, to, Checkpoint(s));
    AgreesIffRedoneFromCommon(tree, from, from, to, parallel, s, steps);
  }

  /** How one message was handled. */
  datatype Handling<T> = Handling(parallel: nat, steps: seq<Step<T>>)

  /** The index after handling the messages in turn, if each handling is one. */
  function IndexAfter<T>(s: State<T>, messages: seq<BlocksExt>, handlings: seq<Handling<T>>): Option<State<T>>
    requires |messages| == |handlings|
  {
    if messages == [] then Some(s)
    else
      var k := |messages| - 1;
      match IndexAfter(s, messages[..k], handlings[..k])
      case None => None
      case Some(before) =>
        var numbers := Numbers(messages[k].blocks);
        if Handles(handlings[k].parallel, before, numbers, handlings[k].steps)
        then Some(AfterMessage(handlings[k].parallel, before, numbers, handlings[k].steps))
        else None
  }

  /** While a message is handled, the node's chain leads to its new best block and maybe beyond. */
  ghost predicate AgainstCanonical<T>(
    tree: Headers, best: Hash, messages: seq<BlocksExt>, handlings: seq<Handling<T>>)
    requires IsTree(tree) && FollowsFrom(tree, best, messages) && |messages| == |handlings|
  {
    messages == [] ||
    var k := |messages| - 1;
    && AgainstCanonical(tree, best, messages[..k], handlings[..k])
    && Follow(tree, Tip(best, messages), handlings[k].steps)
  }

  predicate NoneMissed<T>(s: State<T>, messages: seq<BlocksExt>, handlings: seq<Handling<T>>)
    requires |messages| == |handlings| && IndexAfter(s, messages, handlings).Some?
  {
    messages == [] ||
    var k := |messages| - 1;
    && NoneMissed(s, messages[..k], handlings[..k])
    && !Missed(messages[k], IndexAfter(s, messages[..k], handlings[..k]).value)
  }

  /**
   Follower and index in lock-step, over any sequence of extensions and reorgs, to longer or shorter
   chains: as long as no message is missed the index agrees with the best path after every message,
   and no height up to the checkpoint is left half-done.
   */
  lemma {:induction false} IndexFollowsBestPath<T>(
    tree: Headers, best: Hash, s: State<T>, messages: seq<BlocksExt>, handlings: seq<Handling<T>>)
    requires IsTree(tree) && FollowsFrom(tree, best, messages) && |messages| == |handlings|
    requires Agrees(tree, best, s) && Consistent(s) && SettledBelow(s, Checkpoint(s) + 1)
    requires AgainstCanonical(tree, best, messages, handlings)
    requires IndexAfter(s, messages, handlings).Some? && NoneMissed(s, messages, handlings)
    ensures Tip(best, messages) in tree
    ensures var after := IndexAfter(s, messages, handlings).value;
            && Agrees(tree, Tip(best, messages), after)
            && Consistent(after) && SettledBelow(after, Checkpoint(after) + 1)
  {
    if messages != [] {
      var k := |messages| - 1;
      IndexFollowsBestPath(tree, best, s, messages[..k], handlings[..k]);
      var before := IndexAfter(s, messages[..k], handlings[..k]).value;
      AgreesUnlessMissed(
        tree, Tip(best, messages[..k]), Tip(best, messages), handlings[k].parallel, before, handlings[k].steps);
      HandledMessageSettles(handlings[k].parallel, before, Numbers(messages[k].blocks), handlings[k].steps);
    }
  }

  /** Genesis 0 and two blocks on it, 1 and 2. */
  const FORK: Headers := map[0 := Header(0, 0, 0), 1 := Header(1, 0, 1), 2 := Header(2, 0, 1)]

  lemma {:induction false} ForkRoute()
    ensures IsTree(FORK)
    ensures Path(FORK, 0) == [0] && Path(FORK, 1) == [0, 1] && Path(FORK, 2) == [0, 2]
    ensures MessageFor(FORK, 0, 1) == Some(BlocksExt([FORK[1]], None))
    ensures MessageFor(FORK, 1, 2).Some? && MessageFor(FORK, 1, 2).value.Depth() == 1
    ensures MessageFor(FORK, 1, 2).value.blocks == [FORK[2]]
  {
    assert Linked(FORK, 0) && Linked(FORK, 1) && Linked(FORK, 2);
    assert Path(FORK, 1) == Path(FORK, 0) + [1] && Path(FORK, 2) == Path(FORK, 0) + [2];
    ForkMessage(0, 1);
    ForkMessage(1, 2);
  }

  lemma {:induction false} ForkMessage(from: Hash, to: Hash)
    requires IsTree(FORK) && from in FORK && to in FORK && from != to && to != 0
    requires Path(FORK, 0) == [0] && Path(FORK, 1) == [0, 1] && Path(FORK, 2) == [0, 2]
    ensures MessageFor(FORK, from, to).Some? && MessageFor(FORK, from, to).value.Depth() == FORK[from].number
    ensures MessageFor(FORK, from, to).value.blocks == [FORK[to]]
    ensures from == 0 ==> MessageFor(FORK, from, to).value.maybeReorgData == None
  {
    RouteParts(FORK, from, to);
    EnactedInTree(FORK, from, to);
    var p, q := Path(FORK, from), Path(FORK, to);
    assert CommonLength(p, q) == 1;
    assert Rising(q, 1) == [HashAndNumber(1, to)];
  }

  /** An attempt at a block without statements. */
  function Bare(hash: Hash): Attempt<nat> {
    Attempt(hash, [])
  }

  const FIRST_INDEXED: State<nat> := State(Some(1), Idle, [], map[1 := Bare(1)])

  const FIRST_STEPS: seq<Step<nat>> := [Begin(1, Bare(1))] + [Yield] + [Finish]

  lemma {:induction false} FirstIsIndexed()
    ensures Handles(1, Initial<nat>(), [1], FIRST_STEPS)
    ensures AfterMessage(1, Initial<nat>(), [1], FIRST_STEPS) == FIRST_INDEXED
  {
    var received: State<nat> := State(None, Working(1, 1, 1, map[]), [], map[]);
    var begun: State<nat> := State(None, Working(1, 1, 1, map[1 := Flight(Bare(1), 0)]), [], map[]);
    var yielded: State<nat> := State(None, Working(1, 1, 2, map[]), [], map[1 := Bare(1)]);
    assert Apply(1, Initial<nat>(), Receive([1], true)) == received;
    RunOneMore(1, received, [], received, Begin(1, Bare(1)));
    assert [] + [Begin(1, Bare(1))] == [Begin(1, Bare(1))];
    assert Apply(1, received, Begin(1, Bare(1))) == begun;
    RunOneMore(1, received, [Begin(1, Bare(1))], begun, Yield);
    assert Apply(1, begun, Yield) == yielded;
    RunOneMore(1, received, [Begin(1, Bare(1))] + [Yield], yielded, Finish);
  }

  lemma SecondIsSkipped()
    ensures Handles(1, FIRST_INDEXED, [1], [])
    ensures AfterMessage(1, FIRST_INDEXED, [1], []) == FIRST_INDEXED
  {
    assert Apply(1, FIRST_INDEXED, Receive([1], true)) == FIRST_INDEXED;
  }

  lemma {:induction false} ForkFollows()
    ensures IsTree(FORK) && MessageFor(FORK, 0, 1).Some? && MessageFor(FORK, 1, 2).Some?
    ensures FollowsFrom(FORK, 0, [MessageFor(FORK, 0, 1).value] + [MessageFor(FORK, 1, 2).value])
  {
    ForkRoute();
    FollowsTwoMoves(FORK, 0, 1, 2);
  }

  lemma {:induction false} OneBlockIndexed(tree: Headers, best: Hash, indexed: Hash)
    requires IsTree(tree) && best in tree && tree[best].number == 1
    ensures Agrees<nat>(tree, best, State(Some(1), Idle, [], map[1 := Bare(indexed)])) <==> best == indexed
  {
    assert Path(tree, best)[1] == best;
    var s: State<nat> := State(Some(1), Idle, [], map[1 := Bare(indexed)]);
    assert 1 in s.done && s.done[1].hash == indexed;
  }

  lemma ForkNumbers()
    ensures Numbers([FORK[1]]) == [1] && Numbers([FORK[2]]) == [1]
  {
  }

  /**
   A reorg to a chain of the same length by a single block is skipped: in the run where block 1 is
   indexed and the best block then moves to 2, the index keeps block 1 at height 1.
   */
  lemma {:induction false} SingleBlockReorgIsMissed()
    ensures IsTree(FORK) && MessageFor(FORK, 0, 1).Some? && MessageFor(FORK, 1, 2).Some?
    ensures FollowsFrom(FORK, 0, [MessageFor(FORK, 0, 1).value] + [MessageFor(FORK, 1, 2).value])
    ensures MessageFor(FORK, 0, 1).value.blocks == [FORK[1]] && MessageFor(FORK, 1, 2).value.blocks == [FORK[2]]
    ensures Numbers([FORK[1]]) == [1] && Numbers([FORK[2]]) == [1]
    ensures Handles(1, Initial<nat>(), [1], FIRST_STEPS)
    ensures AfterMessage(1, Initial<nat>(), [1], FIRST_STEPS) == FIRST_INDEXED
    ensures Agrees(FORK, 1, FIRST_INDEXED)
    ensures Handles(1, FIRST_INDEXED, [1], [])
    ensures AfterMessage(1, FIRST_INDEXED, [1], []) == FIRST_INDEXED
    ensures !Agrees(FORK, 2, FIRST_INDEXED)
  {
    ForkRoute();
    ForkFollows();
    FirstIsIndexed();
    SecondIsSkipped();
    ForkNumbers();
    OneBlockIndexed(FORK, 1, 1);
    OneBlockIndexed(FORK, 2, 1);
  }
}
