/** The monitor for chain stalls, recoveries and deep reorgs, over the follower's messages. */
module StallAndReorg {
  import opened Chain
  import opened Messages
  import opened Outcomes
  import opened Silence

  /** What one round of the loop sees. */
  datatype Seen = Arrived(message: BlocksExt) | TimedOut

  datatype Alert =
    | ChainStall(lastBlock: HashAndNumber, duration: nat)
    | ChainRecovery(bestBlock: HashAndNumber, duration: nat)
    | Reorg(bestBlock: HashAndNumber, data: ReorgData)

  /** The loop relies on every message holding a block. */
  predicate AllHaveBlocks(history: seq<Seen>) {
    forall seen | seen in history && seen.Arrived? :: seen.message.blocks != []
  }

  /** The last block of a message, which always holds one. */
  function Latest(message: BlocksExt): HashAndNumber {
    if message.blocks == [] then HashAndNumber(0, 0)
    else
      var last := message.blocks[|message.blocks| - 1];
      HashAndNumber(last.number, last.hash)
  }

  // The history alone decides the alerts

  /** How many timeouts have followed the last message. */
  function Timeouts(history: seq<Seen>): nat {
    if history == [] || history[|history| - 1].Arrived? then 0 else Timeouts(history[..|history| - 1]) + 1
  }

  /** The last message's last block. */
  function LastBest(history: seq<Seen>): Option<HashAndNumber>
  {
    if history == [] then None
    else
      match history[|history| - 1]
      case Arrived(message) => Some(Latest(message))
      case TimedOut => LastBest(history[..|history| - 1])
  }

  function ReorgAlerts(message: BlocksExt, depthThreshold: nat): seq<Alert>
  {
    match message.maybeReorgData
    case None => []
    case Some(data) => if |data.retracted| >= depthThreshold then [Reorg(Latest(message), data)] else []
  }

  /** The alerts of the last round, given what came before it. */
  function AlertsAt(before: seq<Seen>, seen: Seen, threshold: nat, depthThreshold: nat): seq<Alert>
  {
    match seen
    case Arrived(message) =>
      (if Timeouts(before) == 0 then [] else [ChainRecovery(Latest(message), Times(threshold, Timeouts(before)))])
      + ReorgAlerts(message, depthThreshold)
    case TimedOut =>
      match LastBest(before)
      case None => []
      case Some(best) => [ChainStall(best, Times(threshold, Timeouts(before) + 1))]
  }

  function AlertsOf(history: seq<Seen>, threshold: nat, depthThreshold: nat): seq<Alert>
  {
    if history == [] then []
    else
      var init, last := history[..|history| - 1], history[|history| - 1];
      AlertsOf(init, threshold, depthThreshold) + AlertsAt(init, last, threshold, depthThreshold)
  }

  class Watch {
    const stallThreshold: nat
    const reorgDepthThreshold: nat
    var timeoutFired: Option<nat>
    var maybeLastBestBlock: Option<HashAndNumber>
    var alerts: seq<Alert>

    constructor (stallThreshold: nat, reorgDepthThreshold: nat)
      ensures this.stallThreshold == stallThreshold && this.reorgDepthThreshold == reorgDepthThreshold
      ensures timeoutFired == None && maybeLastBestBlock == None && alerts == []
    {
      this.stallThreshold, this.reorgDepthThreshold := stallThreshold, reorgDepthThreshold;
      timeoutFired, maybeLastBestBlock, alerts := None, None, [];
    }

    /** The fields are what the history says. */
    ghost predicate Reflects(history: seq<Seen>)
      reads this
    {
      && timeoutFired == (if Timeouts(history) == 0 then None else Some(Times(stallThreshold, Timeouts(history))))
      && maybeLastBestBlock == LastBest(history)
      && alerts == AlertsOf(history, stallThreshold, reorgDepthThreshold)
    }

    method OnMessage(message: BlocksExt, ghost before: seq<Seen>)
      requires Reflects(before) && message.blocks != []
      modifies this
      ensures Reflects(before + [Arrived(message)])
    {
      assert (before + [Arrived(message)])[..|before|] == before;
      var lastTimeout := timeoutFired;
      timeoutFired := None;
      var latest := message.blocks[|message.blocks| - 1];
      var best := HashAndNumber(latest.number, latest.hash);
      maybeLastBestBlock := Some(best);
      var sent: seq<Alert> := [];
      if lastTimeout.Some? {
        sent := sent + [ChainRecovery(best, lastTimeout.value)];
      }
      if message.maybeReorgData.Some? {
        var data := message.maybeReorgData.value;
        if |data.retracted| >= reorgDepthThreshold {
          sent := sent + [Reorg(best, data)];
        }
      }
      alerts := alerts + sent;
    }

    method OnTimeout(ghost before: seq<Seen>)
      requires Reflects(before) && stallThreshold <= DURATION_MAX
      modifies this
      ensures Reflects(before + [TimedOut])
    {
      assert (before + [TimedOut])[..|before|] == before;
      var duration :=
        match timeoutFired
        case Some(timeout) => SaturatingAdd(timeout, stallThreshold)
        case None => stallThreshold;
      if maybeLastBestBlock.Some? {
        alerts := alerts + [ChainStall(maybeLastBestBlock.value, duration)];
      }
      timeoutFired := Some(duration);
    }

    /** The loop, over a finite history: exactly the alerts the history calls for, in order. */
    method Run(history: seq<Seen>)
      requires AllHaveBlocks(history) && stallThreshold <= DURATION_MAX
      requires timeoutFired == None && maybeLastBestBlock == None && alerts == []
      modifies this
      ensures alerts == AlertsOf(history, stallThreshold, reorgDepthThreshold)
    {
      for i := 0 to |history|
        invariant Reflects(history[..i])
      {
        assert history[..i + 1] == history[..i] + [history[i]];
        assert history[i] in history;
        match history[i]
        case Arrived(message) => OnMessage(message, history[..i]);
        case TimedOut => OnTimeout(history[..i]);
      }
      assert history[..|history|] == history;
    }
  }

  // Each round's alerts, in figures

  /** The message at index `i` is the last one. */
  ghost predicate LastArrival(history: seq<Seen>, i: nat) {
    i < |history| && history[i].Arrived? && forall j | i < j < |history| :: history[j].TimedOut?
  }

  /** Nothing has arrived. */
  ghost predicate NoArrival(history: seq<Seen>) {
    forall j | 0 <= j < |history| :: history[j].TimedOut?
  }

  /** The timeouts in a row are those after the last message, whose last block is the one to report. */
  lemma {:induction false} SinceLastArrival(history: seq<Seen>, i: nat)
    requires LastArrival(history, i) && history[i].message.blocks != []
    ensures Timeouts(history) == |history| - 1 - i
    ensures var blocks := history[i].message.blocks;
            LastBest(history) == Some(HashAndNumber(blocks[|blocks| - 1].number, blocks[|blocks| - 1].hash))
  {
    if i < |history| - 1 {
      SinceLastArrival(history[..|history| - 1], i);
    }
  }

  lemma {:induction false} SinceStart(history: seq<Seen>)
    requires NoArrival(history)
    ensures Timeouts(history) == |history| && LastBest(history).None?
  {
    if history != [] {
      SinceStart(history[..|history| - 1]);
    }
  }

  /** A timeout before any message sends nothing. */
  lemma {:induction false} FirstTimeoutsAreSilent(before: seq<Seen>, threshold: nat, depthThreshold: nat)
    requires NoArrival(before)
    ensures AlertsOf(before + [TimedOut], threshold, depthThreshold) == AlertsOf(before, threshold, depthThreshold)
  {
    SinceStart(before);
    OneMoreRound(before, TimedOut, threshold, depthThreshold);
  }

  /** A later one reports the last message's last block, and the threshold for each timeout since that message. */
  lemma {:induction false} TimeoutAlert(before: seq<Seen>, i: nat, threshold: nat, depthThreshold: nat)
    requires LastArrival(before, i) && before[i].message.blocks != []
    ensures var last := before[i].message.blocks[|before[i].message.blocks| - 1];
            AlertsOf(before + [TimedOut], threshold, depthThreshold)
            == AlertsOf(before, threshold, depthThreshold)
               + [ChainStall(HashAndNumber(last.number, last.hash), Capped(threshold * (|before| - i)))]
  {
    SinceLastArrival(before, i);
    TimesIsCapped(threshold, |before| - i);
    OneMoreRound(before, TimedOut, threshold, depthThreshold);
  }

  /**
   A message after `missed` timeouts in a row sends a recovery if there were any, and then, if it comes with
   reorg data that retract at least as many blocks as the threshold, an alert with exactly these data.
   */
  lemma {:induction false} MessageAlerts(
    before: seq<Seen>, missed: nat, message: BlocksExt, threshold: nat, depthThreshold: nat)
    requires message.blocks != []
    requires if missed < |before| then LastArrival(before, |before| - 1 - missed)
             else missed == |before| && NoArrival(before)
    requires missed < |before| ==> before[|before| - 1 - missed].message.blocks != []
    ensures var last := message.blocks[|message.blocks| - 1];
            var best := HashAndNumber(last.number, last.hash);
            AlertsOf(before + [Arrived(message)], threshold, depthThreshold)
            == AlertsOf(before, threshold, depthThreshold)
               + ((if missed > 0 then [ChainRecovery(best, Capped(threshold * missed))] else [])
                  + if message.maybeReorgData.Some? && |message.maybeReorgData.value.retracted| >= depthThreshold
                    then [Reorg(best, message.maybeReorgData.value)] else [])
  {
    if missed < |before| {
      SinceLastArrival(before, |before| - 1 - missed);
    } else {
      SinceStart(before);
    }
    TimesIsCapped(threshold, missed);
    OneMoreRound(before, Arrived(message), threshold, depthThreshold);
  }

  // Recoveries

  /** How many times a message ended a run of timeouts. */
  function Resumptions(history: seq<Seen>): nat {
    if history == [] then 0
    else
      var init := history[..|history| - 1];
      Resumptions(init) + if history[|history| - 1].Arrived? && Timeouts(init) > 0 then 1 else 0
  }

  predicate IsRecovery(alert: Alert) {
    alert.ChainRecovery?
  }

  /** One recovery per run of timeouts that a message ended. */
  lemma {:induction false} OneRecoveryPerResumption(history: seq<Seen>, threshold: nat, depthThreshold: nat)
    ensures Count(AlertsOf(history, threshold, depthThreshold), IsRecovery) == Resumptions(history)
  {
    if history != [] {
      var init, last := history[..|history| - 1], history[|history| - 1];
      OneRecoveryPerResumption(init, threshold, depthThreshold);
      var more := AlertsAt(init, last, threshold, depthThreshold);
      CountAppend(AlertsOf(init, threshold, depthThreshold), more, IsRecovery);
      if last.Arrived? && Timeouts(init) > 0 {
        var head := [ChainRecovery(Latest(last.message), Times(threshold, Timeouts(init)))];
        CountAppend(head, ReorgAlerts(last.message, depthThreshold), IsRecovery);
        assert head[..0] == [];
      }
      NoRecoveryInReorgAlerts(last, depthThreshold);
    }
  }

  lemma NoRecoveryInReorgAlerts(seen: Seen, depthThreshold: nat)
    ensures seen.Arrived? ==> Count(ReorgAlerts(seen.message, depthThreshold), IsRecovery) == 0
    ensures seen.Arrived? ==>
              [] + ReorgAlerts(seen.message, depthThreshold) == ReorgAlerts(seen.message, depthThreshold)
  {
  }

  function Silent(count: nat): (history: seq<Seen>)
    ensures |history| == count && forall i :: 0 <= i < count ==> history[i] == TimedOut
  {
    seq(count, _ => TimedOut)
  }

  /** The stall alerts of a run of timeouts: one each, growing, if any block was seen before, else none. */
  function StallAlerts(best: Option<HashAndNumber>, threshold: nat, count: nat): seq<Alert> {
    if count == 0 || best.None? then []
    else StallAlerts(best, threshold, count - 1) + [ChainStall(best.value, Times(threshold, count))]
  }

  lemma {:induction false} OneMoreRound(before: seq<Seen>, seen: Seen, threshold: nat, depthThreshold: nat)
    ensures Timeouts(before + [seen]) == if seen.TimedOut? then Timeouts(before) + 1 else 0
    ensures LastBest(before + [seen]) == if seen.TimedOut? then LastBest(before) else Some(Latest(seen.message))
    ensures AlertsOf(before + [seen], threshold, depthThreshold)
            == AlertsOf(before, threshold, depthThreshold) + AlertsAt(before, seen, threshold, depthThreshold)
  {
    assert (before + [seen])[..|before|] == before;
  }

  lemma StallStep(before: seq<Seen>, count: nat, threshold: nat, depthThreshold: nat)
    requires Timeouts(before) == count
    ensures StallAlerts(LastBest(before), threshold, count + 1)
            == StallAlerts(LastBest(before), threshold, count) + AlertsAt(before, TimedOut, threshold, depthThreshold)
  {
  }

  lemma {:induction false} SilenceCounts(before: seq<Seen>, count: nat)
    requires Timeouts(before) == 0
    ensures Timeouts(before + Silent(count)) == count && LastBest(before + Silent(count)) == LastBest(before)
    decreases count
  {
    if count == 0 {
      assert before + Silent(0) == before;
    } else {
      SilenceCounts(before, count - 1);
      var history := before + Silent(count);
      assert history[..|history| - 1] == before + Silent(count - 1);
    }
  }

  lemma LongerSilence(before: seq<Seen>, count: nat)
    requires count > 0
    ensures before + Silent(count) == before + Silent(count - 1) + [TimedOut]
  {
  }

  lemma Assoc(a: seq<Alert>, b: seq<Alert>, c: seq<Alert>)
    ensures (a + b) + c == a + (b + c)
  {
  }

  lemma {:induction false} SilenceAlerts(before: seq<Seen>, count: nat, threshold: nat, depthThreshold: nat)
    requires Timeouts(before) == 0
    ensures AlertsOf(before + Silent(count), threshold, depthThreshold)
            == AlertsOf(before, threshold, depthThreshold) + StallAlerts(LastBest(before), threshold, count)
    decreases count
  {
    if count == 0 {
      assert before + Silent(0) == before;
    } else {
      var shorter, best := before + Silent(count - 1), LastBest(before);
      LongerSilence(before, count);
      SilenceCounts(before, count - 1);
      SilenceAlerts(before, count - 1, threshold, depthThreshold);
      StallStep(shorter, count - 1, threshold, depthThreshold);
      OneMoreTimeoutAlerts(shorter, threshold, depthThreshold);
      Assoc(AlertsOf(before, threshold, depthThreshold), StallAlerts(best, threshold, count - 1),
            AlertsAt(shorter, TimedOut, threshold, depthThreshold));
    }
  }

  lemma OneMoreTimeoutAlerts(before: seq<Seen>, threshold: nat, depthThreshold: nat)
    ensures AlertsOf(before + [TimedOut], threshold, depthThreshold)
            == AlertsOf(before, threshold, depthThreshold) + AlertsAt(before, TimedOut, threshold, depthThreshold)
  {
    OneMoreRound(before, TimedOut, threshold, depthThreshold);
  }

  /**
   A silence of `count` timeouts ended by a message: its stall alerts, if a block was seen before it,
   and then one recovery that lasts the timeout times `count`.
   */
  lemma {:induction false} SilenceThenMessage(
    before: seq<Seen>, count: nat, message: BlocksExt, threshold: nat, depthThreshold: nat)
    requires Timeouts(before) == 0 && count > 0
    ensures AlertsOf(before + Silent(count) + [Arrived(message)], threshold, depthThreshold)
            == AlertsOf(before, threshold, depthThreshold) + StallAlerts(LastBest(before), threshold, count)
               + [ChainRecovery(Latest(message), Times(threshold, count))] + ReorgAlerts(message, depthThreshold)
  {
    var silent := before + Silent(count);
    SilenceCounts(before, count);
    SilenceAlerts(before, count, threshold, depthThreshold);
    OneMoreRound(silent, Arrived(message), threshold, depthThreshold);
    Assoc(AlertsOf(silent, threshold, depthThreshold),
          [ChainRecovery(Latest(message), Times(threshold, count))], ReorgAlerts(message, depthThreshold));
  }

  /**
   A silence that a message ends is reported as a recovery alone, without any stall alert before it, if
   and only if nothing had arrived before the silence.
   */
  lemma {:induction false} RecoveryWithoutStall(
    before: seq<Seen>, count: nat, message: BlocksExt, threshold: nat, depthThreshold: nat)
    requires Timeouts(before) == 0 && count > 0
    ensures AlertsOf(before + Silent(count) + [Arrived(message)], threshold, depthThreshold)
            == AlertsOf(before, threshold, depthThreshold)
               + [ChainRecovery(Latest(message), Times(threshold, count))] + ReorgAlerts(message, depthThreshold)
            <==> before == []
  {
    SilenceThenMessage(before, count, message, threshold, depthThreshold);
    NoBestBeforeFirstBlock(before);
    var stalls := StallAlerts(LastBest(before), threshold, count);
    if before == [] {
      assert AlertsOf(before, threshold, depthThreshold) + stalls == AlertsOf(before, threshold, depthThreshold);
    } else {
      assert before[|before| - 1] in before;
      assert |stalls| > 0;
    }
  }

  lemma {:induction false} NoBestBeforeFirstBlock(history: seq<Seen>)
    ensures LastBest(history).None? <==> forall seen | seen in history :: seen.TimedOut?
  {
    if history != [] {
      var last := history[|history| - 1];
      NoBestBeforeFirstBlock(history[..|history| - 1]);
      assert history == history[..|history| - 1] + [last];
      assert last in history;
    }
  }

  // Reorg alerts, from the follower's best blocks

  function MessagesOf(history: seq<Seen>): seq<BlocksExt> {
    if history == [] then []
    else
      MessagesOf(history[..|history| - 1])
      + if history[|history| - 1].Arrived? then [history[|history| - 1].message] else []
  }

  function ReorgTips(alerts: seq<Alert>): seq<HashAndNumber> {
    if alerts == [] then []
    else
      ReorgTips(alerts[..|alerts| - 1])
      + if alerts[|alerts| - 1].Reorg? then [alerts[|alerts| - 1].bestBlock] else []
  }

  lemma {:induction false} ReorgTipsAppend(a: seq<Alert>, b: seq<Alert>)
    ensures ReorgTips(a + b) == ReorgTips(a) + ReorgTips(b)
    decreases |b|
  {
    if b == [] {
      assert a + b == a;
    } else {
      ReorgTipsAppend(a, b[..|b| - 1]);
      assert (a + b)[..|a + b| - 1] == a + b[..|b| - 1];
    }
  }

  /** The move abandons blocks, at least as many as the threshold asks for. */
  ghost predicate DeepMove(tree: Headers, from: Hash, to: Hash, depthThreshold: nat)
    requires IsTree(tree) && from in tree && to in tree
  {
    var common := RouteOf(tree, from, to).CommonBlock();
    common.hash != from && tree[from].number - common.number >= depthThreshold
  }

  /** The new best blocks of the deep moves among the follower's messages. */
  ghost function DeepTips(tree: Headers, best: Hash, messages: seq<BlocksExt>, depthThreshold: nat): seq<HashAndNumber>
    requires IsTree(tree) && FollowsFrom(tree, best, messages)
  {
    if messages == [] then []
    else
      var init, to := messages[..|messages| - 1], Tip(best, messages);
      FollowsTip(tree, best, init);
      DeepTips(tree, best, init, depthThreshold)
      + if DeepMove(tree, Tip(best, init), to, depthThreshold) then [HashAndNumber(tree[to].number, to)] else []
  }

  /** A message's reorg alert is sent exactly when old best number minus common number reaches the threshold. */
  lemma {:induction false} ReorgAlertIffDeep(
    tree: Headers, from: Hash, to: Hash, message: BlocksExt, depthThreshold: nat)
    requires IsTree(tree) && from in tree && to in tree && MessageFor(tree, from, to) == Some(message)
    ensures message.blocks != [] && Latest(message) == HashAndNumber(tree[to].number, to)
    ensures ReorgTips(ReorgAlerts(message, depthThreshold))
            == if DeepMove(tree, from, to, depthThreshold) then [Latest(message)] else []
  {
    MessageShape(tree, from, to);
    CommonPath(tree, from, to);
    assert Linked(tree, to);
    var alerts := ReorgAlerts(message, depthThreshold);
    assert alerts != [] ==> alerts[..|alerts| - 1] == [];
  }

  lemma {:induction false} LastRoundReorgTips(history: seq<Seen>, threshold: nat, depthThreshold: nat)
    requires history != []
    ensures var init, last := history[..|history| - 1], history[|history| - 1];
            ReorgTips(AlertsOf(history, threshold, depthThreshold))
            == ReorgTips(AlertsOf(init, threshold, depthThreshold))
               + if last.Arrived? then ReorgTips(ReorgAlerts(last.message, depthThreshold)) else []
  {
    var before, seen := history[..|history| - 1], history[|history| - 1];
    ReorgTipsAppend(AlertsOf(before, threshold, depthThreshold), AlertsAt(before, seen, threshold, depthThreshold));
    if seen.Arrived? {
      var recovery := if Timeouts(before) == 0 then []
                      else [ChainRecovery(Latest(seen.message), Times(threshold, Timeouts(before)))];
      ReorgTipsAppend(recovery, ReorgAlerts(seen.message, depthThreshold));
      assert ReorgTips(recovery) == [];
    }
  }

  lemma {:induction false} LastDeepMove(
    tree: Headers, best: Hash, messages: seq<BlocksExt>, message: BlocksExt, depthThreshold: nat)
    requires IsTree(tree) && FollowsFrom(tree, best, messages + [message])
    ensures FollowsFrom(tree, best, messages)
    ensures DeepTips(tree, best, messages + [message], depthThreshold)
            == DeepTips(tree, best, messages, depthThreshold) + ReorgTips(ReorgAlerts(message, depthThreshold))
  {
    var all := messages + [message];
    assert all[..|all| - 1] == messages && all[|all| - 1] == message;
    FollowsTip(tree, best, messages);
    ReorgAlertIffDeep(tree, Tip(best, messages), Tip(best, all), message, depthThreshold);
  }

  /**
   Over a whole session, with timeouts anywhere between the follower's messages, the reorg alerts are
   exactly those of the deep moves of the best block, in order.
   */
  lemma {:induction false} ReorgAlertsAreDeepMoves(
    tree: Headers, best: Hash, history: seq<Seen>, threshold: nat, depthThreshold: nat)
    requires IsTree(tree) && FollowsFrom(tree, best, MessagesOf(history))
    ensures ReorgTips(AlertsOf(history, threshold, depthThreshold))
            == DeepTips(tree, best, MessagesOf(history), depthThreshold)
  {
    if history != [] {
      var init, last := history[..|history| - 1], history[|history| - 1];
      LastRoundReorgTips(history, threshold, depthThreshold);
      if last.Arrived? {
        LastDeepMove(tree, best, MessagesOf(init), last.message, depthThreshold);
      } else {
        assert MessagesOf(init) + [] == MessagesOf(init);
      }
      ReorgAlertsAreDeepMoves(tree, best, init, threshold, depthThreshold);
    }
  }
}
