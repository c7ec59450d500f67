/**
 The index behind a follower whose messages may be handled, dropped because the loop lagged, or cut
 short by a crash after which both start again: exactly when it still agrees with the best path.
 */
module Restarts {
  import opened Chain
  import opened Lockstep
  import opened Messages
  import opened Outcomes
  import opened Processor

  /** What became of the message of a move. After a restart the follower may move from any block. */
  datatype Happening<T> =
    | Handled(from: Hash, to: Hash, parallel: nat, steps: seq<Step<T>>)
    | Dropped(from: Hash, to: Hash)
    | Crashed(from: Hash, to: Hash, parallel: nat, steps: seq<Step<T>>)

  ghost predicate IsMove(tree: Headers, from: Hash, to: Hash)
    requires IsTree(tree)
  {
    from in tree && to in tree && MessageFor(tree, from, to).Some? && MessageFor(tree, from, to).value.blocks != []
  }

  /** The numbers of a move's blocks. */
  ghost function NumbersOf(tree: Headers, from: Hash, to: Hash): seq<nat>
    requires IsTree(tree) && IsMove(tree, from, to)
  {
    Numbers(MessageFor(tree, from, to).value.blocks)
  }

  /** Where the handling of a move's message has come after these steps. */
  ghost function Within<T>(
    tree: Headers, s: State<T>, from: Hash, to: Hash, parallel: nat, steps: seq<Step<T>>): Option<State<T>>
    requires IsTree(tree) && IsMove(tree, from, to) && s.phase.Idle?
  {
    Run(parallel, Apply(parallel, s, Receive(NumbersOf(tree, from, to), true)), steps)
  }

  ghost predicate Happens<T>(tree: Headers, s: State<T>, h: Happening<T>)
    requires IsTree(tree)
  {
    && s.phase.Idle? && IsMove(tree, h.from, h.to)
    && match h
       case Handled(from, to, parallel, steps) =>
         Handles(parallel, s, NumbersOf(tree, from, to), steps) && Follow(tree, to, steps)
       case Dropped(_, _) => true
       case Crashed(from, to, parallel, steps) =>
         && (forall i | 0 <= i < |steps| :: Quiet(steps[i])) && Follow(tree, to, steps)
         && Within(tree, s, from, to, parallel, steps).Some?
         && Within(tree, s, from, to, parallel, steps).value.phase.Working?
  }

  ghost function After<T>(tree: Headers, s: State<T>, h: Happening<T>): State<T>
    requires IsTree(tree) && Happens(tree, s, h)
  {
    match h
    case Handled(from, to, parallel, steps) => AfterMessage(parallel, s, NumbersOf(tree, from, to), steps)
    case Dropped(_, _) => s
    case Crashed(from, to, parallel, steps) =>
      Apply(parallel, Within(tree, s, from, to, parallel, steps).value, Crash)
  }

  /** The lowest height that the message makes the loop process. */
  ghost function Lowest<T>(tree: Headers, s: State<T>, h: Happening<T>): nat
    requires IsTree(tree) && IsMove(tree, h.from, h.to)
  {
    RangeOf(NumbersOf(tree, h.from, h.to), Checkpoint(s)).from
  }

  /**
   What it takes for an index that agrees with `was` to agree with the new best block: a handled message
   redoes all above the common block, a dropped one had nothing to redo, and a crash leaves a checkpoint
   below the common block, or below the results taken of a range that starts right.
   */
  ghost predicate KeepsUp<T>(tree: Headers, was: Hash, s: State<T>, h: Happening<T>)
    requires IsTree(tree) && was in tree && Happens(tree, s, h)
  {
    var common := Common(tree, was, h.to);
    match h
    case Handled(_, _, _, _) => Lowest(tree, s, h) <= common + 1
    case Dropped(_, _) => Checkpoint(s) <= common
    case Crashed(from, to, parallel, steps) =>
      var so := Within(tree, s, from, to, parallel, steps).value;
      Checkpoint(so) <= common || (Lowest(tree, s, h) <= common + 1 && Checkpoint(so) < so.phase.next)
  }

  /** While a message is handled the checkpoint is the old one, or one of the results taken. */
  lemma {:induction false} CheckpointAtWork<T>(
    parallel: nat, s: State<T>, numbers: seq<nat>, steps: seq<Step<T>>)
    requires s.phase.Idle? && numbers != []
    requires forall i | 0 <= i < |steps| :: Quiet(steps[i])
    requires Run(parallel, Apply(parallel, s, Receive(numbers, true)), steps).Some?
    requires Run(parallel, Apply(parallel, s, Receive(numbers, true)), steps).value.phase.Working?
    ensures var so := Run(parallel, Apply(parallel, s, Receive(numbers, true)), steps).value;
            var range := RangeOf(numbers, Checkpoint(s));
            && so.phase.to == range.to && range.from <= so.phase.next <= range.to + 1
            && (so.checkpoint == s.checkpoint || range.from <= Checkpoint(so) < so.phase.next)
  {
    if steps != [] {
      CheckpointAtWork(parallel, s, numbers, steps[..|steps| - 1]);
    }
  }

  /** An index of which a part has been redone agrees with the new path exactly under the condition for a crash. */
  lemma {:induction false} PartlyRedoneAgrees<T>(
    tree: Headers, was: Hash, to: Hash, steps: seq<Step<T>>, s: State<T>, low: nat, next: nat, after: State<T>)
    requires IsTree(tree) && was in tree && to in tree && Agrees(tree, was, s) && Follow(tree, to, steps)
    requires low <= Checkpoint(s) + 1 && low <= next <= tree[to].number + 1
    requires Redone(steps, s.done, low, next, after.done) && after.phase.Idle?
    requires Checkpoint(after) == Checkpoint(s) || low <= Checkpoint(after) < next
    ensures Agrees(tree, to, after) <==>
              || Checkpoint(after) <= Common(tree, was, to)
              || (low <= Common(tree, was, to) + 1 && Checkpoint(after) < next)
  {
    var common := Common(tree, was, to);
    SameBelowCommon(tree, was, to, 0);
    if Checkpoint(after) <= common || (low <= common + 1 && Checkpoint(after) < next) {
      forall n | 1 <= n <= Checkpoint(after)
        ensures n in after.done && after.done[n].hash == Path(tree, to)[n]
      {
        RedoneAt(tree, was, to, steps, s, low, next, after, n);
      }
    } else {
      // Either the first height above the common block, or the first that was not redone.
      var n := if low <= common + 1 < next then next else common + 1;
      RedoneAt(tree, was, to, steps, s, low, next, after, n);
    }
  }

  /** A height that was redone is on the new path, and any other up to the old checkpoint on the old one. */
  lemma {:induction false} RedoneAt<T>(
    tree: Headers, was: Hash, to: Hash, steps: seq<Step<T>>, s: State<T>, low: nat, next: nat, after: State<T>, n: nat)
    requires IsTree(tree) && was in tree && to in tree && Agrees(tree, was, s) && Follow(tree, to, steps)
    requires next <= tree[to].number + 1 && Redone(steps, s.done, low, next, after.done) && n > 0
    ensures low <= n < next ==> n in after.done && after.done[n].hash == Path(tree, to)[n]
    ensures !(low <= n < next) && n <= Checkpoint(s) ==>
              n in after.done && after.done[n].hash == Path(tree, was)[n]
    ensures Common(tree, was, to) <= tree[was].number && Common(tree, was, to) <= tree[to].number
    ensures n <= Common(tree, was, to) ==> Path(tree, was)[n] == Path(tree, to)[n]
    ensures Common(tree, was, to) < n <= tree[was].number && n <= tree[to].number ==>
              Path(tree, was)[n] != Path(tree, to)[n]
  {
    SameBelowCommon(tree, was, to, n);
    if low <= n < next {
      assert Begin(n, after.done[n]) in steps;
      var i :| 0 <= i < |steps| && steps[i] == Begin(n, after.done[n]);
    } else if n <= Checkpoint(s) {
      assert n in s.done && s.done[n].hash == Path(tree, was)[n];
    }
  }

  /** A message that is cut short by a crash, at any of its steps. */
  lemma {:induction false} CrashedAgrees<T>(
    tree: Headers, was: Hash, from: Hash, to: Hash, parallel: nat, s: State<T>, steps: seq<Step<T>>, so: State<T>)
    requires IsTree(tree) && was in tree && Agrees(tree, was, s) && IsMove(tree, from, to) && Follow(tree, to, steps)
    requires forall i | 0 <= i < |steps| :: Quiet(steps[i])
    requires Within(tree, s, from, to, parallel, steps) == Some(so) && so.phase.Working?
    ensures var low := RangeOf(NumbersOf(tree, from, to), Checkpoint(s)).from;
            Agrees(tree, to, Apply(parallel, so, Crash)) <==>
              || Checkpoint(so) <= Common(tree, was, to)
              || (low <= Common(tree, was, to) + 1 && Checkpoint(so) < so.phase.next)
  {
    var numbers := NumbersOf(tree, from, to);
    RangeOfMessage(tree, from, to, Checkpoint(s));
    HandlingKeepsPartly(parallel, s, numbers, steps);
    CheckpointAtWork(parallel, s, numbers, steps);
    PartlyRedoneAgrees(tree, was, to, steps, s, RangeOf(numbers, Checkpoint(s)).from, so.phase.next,
                       Apply(parallel, so, Crash));
  }

  /** One message, whatever becomes of it: the index agrees with the new best block if and only if it keeps up. */
  lemma {:induction false} AgreesIffKeepsUp<T>(tree: Headers, was: Hash, s: State<T>, h: Happening<T>)
    requires IsTree(tree) && was in tree && Agrees(tree, was, s) && Happens(tree, s, h)
    ensures Agrees(tree, h.to, After(tree, s, h)) <==> KeepsUp(tree, was, s, h)
  {
    match h
    case Handled(from, to, parallel, steps) =>
      AgreesIffRedoneFromCommon(tree, was, from, to, parallel, s, steps);
    case Dropped(_, to) => DroppedMessage(tree, was, to, s);
    case Crashed(from, to, parallel, steps) =>
      CrashedAgrees(tree, was, from, to, parallel, s, steps, Within(tree, s, from, to, parallel, steps).value);
  }

  // Whole runs

  /** The index after all that happened, if each happens in turn. */
  ghost function AfterAll<T>(tree: Headers, s: State<T>, happenings: seq<Happening<T>>): Option<State<T>>
    requires IsTree(tree)
  {
    if happenings == [] then Some(s)
    else
      var k := |happenings| - 1;
      match AfterAll(tree, s, happenings[..k])
      case None => None
      case Some(before) =>
        if Happens(tree, before, happenings[k]) then Some(After(tree, before, happenings[k])) else None
  }

  /** The best block after all that happened. */
  function Newest<T>(best: Hash, happenings: seq<Happening<T>>): Hash {
    if happenings == [] then best else happenings[|happenings| - 1].to
  }

  lemma {:induction false} NewestInTree<T>(tree: Headers, best: Hash, s: State<T>, happenings: seq<Happening<T>>)
    requires IsTree(tree) && best in tree && AfterAll(tree, s, happenings).Some?
    ensures Newest(best, happenings) in tree
  {
  }

  /** The index agrees with the best path after everything that happened. */
  ghost predicate AgreesThroughout<T>(tree: Headers, best: Hash, s: State<T>, happenings: seq<Happening<T>>)
    requires IsTree(tree) && best in tree && AfterAll(tree, s, happenings).Some?
  {
    NewestInTree(tree, best, s, happenings);
    && Agrees(tree, Newest(best, happenings), AfterAll(tree, s, happenings).value)
    && (happenings == [] || AgreesThroughout(tree, best, s, happenings[..|happenings| - 1]))
  }

  /** Everything that happened kept up, from the best block and the index before it. */
  ghost predicate KeepsUpThroughout<T>(tree: Headers, best: Hash, s: State<T>, happenings: seq<Happening<T>>)
    requires IsTree(tree) && best in tree && AfterAll(tree, s, happenings).Some?
  {
    happenings == [] ||
    var k := |happenings| - 1;
    NewestInTree(tree, best, s, happenings[..k]);
    && KeepsUpThroughout(tree, best, s, happenings[..k])
    && KeepsUp(tree, Newest(best, happenings[..k]), AfterAll(tree, s, happenings[..k]).value, happenings[k])
  }

  /**
   Over any sequence of moves, whose messages are handled, dropped or cut short by crashes with restarts
   after them, the index agrees with the best path throughout if and only if each of them keeps up.
   */
  lemma {:induction false} AgreesThroughoutIff<T>(
    tree: Headers, best: Hash, s: State<T>, happenings: seq<Happening<T>>)
    requires IsTree(tree) && best in tree && Agrees(tree, best, s) && AfterAll(tree, s, happenings).Some?
    ensures AgreesThroughout(tree, best, s, happenings) <==> KeepsUpThroughout(tree, best, s, happenings)
  {
    if happenings != [] {
      var k := |happenings| - 1;
      AgreesThroughoutIff(tree, best, s, happenings[..k]);
      NewestInTree(tree, best, s, happenings[..k]);
      if AgreesThroughout(tree, best, s, happenings[..k]) {
        AgreesIffKeepsUp(
          tree, Newest(best, happenings[..k]), AfterAll(tree, s, happenings[..k]).value, happenings[k]);
      }
    }
  }
}
