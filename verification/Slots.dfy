/**
 The slot monitor: which gossiped slots extend the timekeeper chain, and the alerts this gives.

 How the bounded window makes room when it is full is a library's choice, so it is a parameter.
 Instants and durations are nanoseconds.
 */
module Slots {
  import opened Outcomes
  import opened Silence

  const SLOT_TIMEOUT: nat := 30_000_000_000
  const WINDOW: nat := 600

  datatype SlotDetails = SlotDetails(slot: nat, duration: nat)

  /** What one round of the loop sees. */
  datatype Seen = Slot(slot: nat, at: nat) | TimedOut

  datatype Alert =
    | TimekeeperStall(lastSlot: nat, duration: nat)
    | TimekeeperRecovery(recovered: nat, duration: nat)
    | SlowSlot(slow: nat, previous: nat, slotTime: nat)
    | AvgSlowSlots(latest: nat, count: nat, avgSlotTime: nat)

  /** What a push into a full window gives up. */
  datatype FullRule = DropOldest | ReplaceNewest | DropNew

  function Push(window: seq<SlotDetails>, details: SlotDetails, rule: FullRule): (after: seq<SlotDetails>)
    ensures |window| <= WINDOW ==> 0 < |after| <= WINDOW
  {
    if |window| < WINDOW then window + [details]
    else
      match rule
      case DropOldest => window[1..] + [details]
      case ReplaceNewest => window[..|window| - 1] + [details]
      case DropNew => window
  }

  /** `Instant::duration_since`: zero for an earlier instant. */
  function Since(later: nat, earlier: nat): nat {
    if later < earlier then 0 else later - earlier
  }

  function Total(window: seq<SlotDetails>): nat {
    if window == [] then 0 else Total(window[..|window| - 1]) + window[|window| - 1].duration
  }

  datatype Config = Config(perSlotThreshold: nat, avgSlotThreshold: nat, rule: FullRule)

  // The history alone decides the window and the alerts

  /** The slot starts the chain or extends it. */
  predicate Accepts(window: seq<SlotDetails>, seen: Seen) {
    seen.Slot? && (window == [] || seen.slot == window[|window| - 1].slot + 1)
  }

  predicate Extends(window: seq<SlotDetails>, seen: Seen) {
    window != [] && Accepts(window, seen)
  }

  /** The instant of the last accepted slot, or the monitor's start. */
  function LastInstant(history: seq<Seen>, start: nat, rule: FullRule): nat {
    if history == [] then start
    else
      var init, last := history[..|history| - 1], history[|history| - 1];
      if Accepts(Window(init, start, rule), last) then last.at else LastInstant(init, start, rule)
  }

  function Window(history: seq<Seen>, start: nat, rule: FullRule): (window: seq<SlotDetails>)
    ensures |window| <= WINDOW
  {
    if history == [] then []
    else
      var init, last := history[..|history| - 1], history[|history| - 1];
      var window := Window(init, start, rule);
      if Accepts(window, last)
      then Push(window, SlotDetails(last.slot, Since(last.at, LastInstant(init, start, rule))), rule)
      else window
  }

  /** The timeouts since the chain was last extended; a first slot or a rejected one does not reset them. */
  function Timeouts(history: seq<Seen>, start: nat, rule: FullRule): nat {
    if history == [] then 0
    else
      var init, last := history[..|history| - 1], history[|history| - 1];
      if last.TimedOut? then Timeouts(init, start, rule) + 1
      else if Extends(Window(init, start, rule), last) then 0
      else Timeouts(init, start, rule)
  }

  function AverageAlerts(window: seq<SlotDetails>, slot: nat, threshold: nat): seq<Alert> {
    if |window| != WINDOW || Total(window) / WINDOW <= threshold then []
    else [AvgSlowSlots(slot, WINDOW, Total(window) / WINDOW)]
  }

  /** The alerts of an extension other than the recovery: on its own duration and on the window's average. */
  function SlowAlerts(window: seq<SlotDetails>, slot: nat, duration: nat, config: Config): seq<Alert>
    requires slot > 0
  {
    (if duration > config.perSlotThreshold then [SlowSlot(slot, slot - 1, duration)] else [])
    + AverageAlerts(Push(window, SlotDetails(slot, duration), config.rule), slot, config.avgSlotThreshold)
  }

  /** The alerts of one round, given what came before it. */
  function AlertsAt(before: seq<Seen>, seen: Seen, start: nat, config: Config): seq<Alert> {
    var window := Window(before, start, config.rule);
    match seen
    case TimedOut =>
      if window == [] then []
      else [TimekeeperStall(window[|window| - 1].slot, Times(SLOT_TIMEOUT, Timeouts(before, start, config.rule) + 1))]
    case Slot(slot, at) =>
      if !Extends(window, seen) then []
      else
        var missed := Timeouts(before, start, config.rule);
        var duration := Since(at, LastInstant(before, start, config.rule));
        (if missed == 0 then [] else [TimekeeperRecovery(slot, Times(SLOT_TIMEOUT, missed))])
        + SlowAlerts(window, slot, duration, config)
  }

  function AlertsOf(history: seq<Seen>, start: nat, config: Config): seq<Alert> {
    if history == [] then []
    else
      var init, last := history[..|history| - 1], history[|history| - 1];
      AlertsOf(init, start, config) + AlertsAt(init, last, start, config)
  }

  lemma Assoc(a: seq<Alert>, b: seq<Alert>, c: seq<Alert>)
    ensures (a + b) + c == a + (b + c)
  {
  }

  class Monitor {
    const config: Config
    ghost const start: nat
    var timeoutFired: Option<nat>
    var lastInstant: nat
    var slots: seq<SlotDetails>
    var alerts: seq<Alert>

    constructor (config: Config, now: nat)
      ensures this.config == config && start == now && Reflects([])
    {
      this.config, this.start := config, now;
      timeoutFired, lastInstant, slots, alerts := None, now, [], [];
    }

    /** The fields are what the history says. */
    ghost predicate Reflects(history: seq<Seen>)
      reads this
    {
      var missed := Timeouts(history, start, config.rule);
      && timeoutFired == (if missed == 0 then None else Some(Times(SLOT_TIMEOUT, missed)))
      && lastInstant == LastInstant(history, start, config.rule)
      && slots == Window(history, start, config.rule)
      && alerts == AlertsOf(history, start, config)
    }

    /** The sum of the window's durations, divided by their number. */
    method Average() returns (average: nat)
      requires slots != []
      ensures average == Total(slots) / |slots|
    {
      var sum := 0;
      for i := 0 to |slots|
        invariant sum == Total(slots[..i])
      {
        assert slots[..i + 1][..i] == slots[..i];
        sum := sum + slots[i].duration;
      }
      assert slots[..|slots|] == slots;
      average := sum / |slots|;
    }

    /** Pushes the extension and checks the window's average once it is full. */
    method Extend(details: SlotDetails, now: nat) returns (sent: seq<Alert>)
      requires |slots| <= WINDOW
      modifies this`lastInstant, this`slots
      ensures lastInstant == now && slots == Push(old(slots), details, config.rule)
      ensures sent == AverageAlerts(slots, details.slot, config.avgSlotThreshold)
    {
      lastInstant := now;
      slots := Push(slots, details, config.rule);
      var avgSlotTime := Average();
      sent := if |slots| == WINDOW && avgSlotTime > config.avgSlotThreshold
              then [AvgSlowSlots(details.slot, |slots|, avgSlotTime)] else [];
    }

    method OnSlot(slot: nat, now: nat, ghost before: seq<Seen>)
      requires Reflects(before)
      modifies this
      ensures Reflects(before + [Slot(slot, now)])
    {
      assert (before + [Slot(slot, now)])[..|before|] == before;
      var duration := Since(now, lastInstant);
      if slots == [] {
        slots := Push(slots, SlotDetails(slot, duration), config.rule);
        lastInstant := now;
        return;
      }
      var lastSlot := slots[|slots| - 1].slot;
      if slot != lastSlot + 1 {
        return;
      }
      var sent: seq<Alert> := [];
      var lastTimeout := timeoutFired;
      timeoutFired := None;
      if lastTimeout.Some? {
        sent := sent + [TimekeeperRecovery(slot, lastTimeout.value)];
      }
      if duration > config.perSlotThreshold {
        sent := sent + [SlowSlot(slot, lastSlot, duration)];
      }
      var more := Extend(SlotDetails(slot, duration), now);
      Assoc(if lastTimeout.None? then [] else [TimekeeperRecovery(slot, lastTimeout.value)],
            if duration > config.perSlotThreshold then [SlowSlot(slot, lastSlot, duration)] else [], more);
      alerts := alerts + (sent + more);
    }

    method OnTimeout(ghost before: seq<Seen>)
      requires Reflects(before)
      modifies this
      ensures Reflects(before + [TimedOut])
    {
      assert (before + [TimedOut])[..|before|] == before;
      var duration :=
        match timeoutFired
        case Some(timeout) => SaturatingAdd(timeout, SLOT_TIMEOUT)
        case None => SLOT_TIMEOUT;
      if slots != [] {
        alerts := alerts + [TimekeeperStall(slots[|slots| - 1].slot, duration)];
      }
      timeoutFired := Some(duration);
    }

    /** The loop, over a finite history: exactly the window and the alerts the history calls for. */
    method Run(history: seq<Seen>)
      requires Reflects([])
      modifies this
      ensures slots == Window(history, start, config.rule)
      ensures alerts == AlertsOf(history, start, config)
    {
      for i := 0 to |history|
        invariant Reflects(history[..i])
      {
        assert history[..i + 1] == history[..i] + [history[i]];
        match history[i]
        case Slot(slot, at) => OnSlot(slot, at, history[..i]);
        case TimedOut => OnTimeout(history[..i]);
      }
      assert history[..|history|] == history;
    }
  }

  // Accepted slots

  /** The accepted slots in order. */
  function Accepted(history: seq<Seen>, start: nat, rule: FullRule): seq<nat> {
    if history == [] then []
    else
      var init, last := history[..|history| - 1], history[|history| - 1];
      Accepted(init, start, rule) + if Accepts(Window(init, start, rule), last) then [last.slot] else []
  }

  /** The newest slot of the window after `n` accepted ones: a window that drops new slots stays at its 600th. */
  function NewestIndex(n: nat, rule: FullRule): nat
    requires n > 0
  {
    if rule.DropNew? && n > WINDOW then WINDOW - 1 else n - 1
  }

  lemma {:induction false} NewestInWindow(history: seq<Seen>, start: nat, rule: FullRule)
    ensures var accepted, window := Accepted(history, start, rule), Window(history, start, rule);
            && |window| == (if |accepted| < WINDOW then |accepted| else WINDOW)
            && (accepted != [] ==> window[|window| - 1].slot == accepted[NewestIndex(|accepted|, rule)])
  {
    if history != [] {
      NewestInWindow(history[..|history| - 1], start, rule);
    }
  }

  /**
   Every accepted slot but the first is one more than the window's newest. So the accepted slots are
   gap-free and consecutive over the whole run, unless a full window drops new slots: then that holds
   of the first 601, and every later one repeats the 601st.
   */
  lemma {:induction false} AcceptedAreConsecutive(history: seq<Seen>, start: nat, rule: FullRule, i: nat)
    requires 0 < i < |Accepted(history, start, rule)|
    ensures Accepted(history, start, rule)[i] == Accepted(history, start, rule)[NewestIndex(i, rule)] + 1
  {
    var init := history[..|history| - 1];
    if i < |Accepted(init, start, rule)| {
      AcceptedAreConsecutive(init, start, rule, i);
    } else {
      NewestInWindow(init, start, rule);
    }
  }

  /** In closed form: the `i`-th accepted slot counts up from the first. */
  lemma {:induction false} AcceptedCountUp(history: seq<Seen>, start: nat, rule: FullRule, i: nat)
    requires i < |Accepted(history, start, rule)|
    ensures Accepted(history, start, rule)[i]
            == Accepted(history, start, rule)[0] + if rule.DropNew? && i > WINDOW then WINDOW else i
  {
    if i > 0 {
      AcceptedAreConsecutive(history, start, rule, i);
      AcceptedCountUp(history, start, rule, NewestIndex(i, rule));
    }
  }

  // Durations

  /** The durations of the accepted slots, in order. */
  function Durations(history: seq<Seen>, start: nat, rule: FullRule): seq<nat> {
    if history == [] then []
    else
      var init, last := history[..|history| - 1], history[|history| - 1];
      Durations(init, start, rule)
      + if Accepts(Window(init, start, rule), last) then [Since(last.at, LastInstant(init, start, rule))] else []
  }

  function Sum(durations: seq<nat>): nat {
    if durations == [] then 0 else Sum(durations[..|durations| - 1]) + durations[|durations| - 1]
  }

  /** Slots arrive at instants that never go back. */
  predicate Forward(history: seq<Seen>, start: nat) {
    && (forall i :: 0 <= i < |history| && history[i].Slot? ==> start <= history[i].at)
    && (forall i, j :: 0 <= i < j < |history| && history[i].Slot? && history[j].Slot? ==>
          history[i].at <= history[j].at)
  }

  lemma {:induction false} InstantNotLater(history: seq<Seen>, start: nat, rule: FullRule, at: nat)
    requires start <= at && forall i :: 0 <= i < |history| && history[i].Slot? ==> history[i].at <= at
    ensures LastInstant(history, start, rule) <= at
  {
    if history != [] {
      InstantNotLater(history[..|history| - 1], start, rule, at);
    }
  }

  /** No time is lost or counted twice: the durations add up to the time from start to the last accepted slot. */
  lemma {:induction false} DurationsTelescope(history: seq<Seen>, start: nat, rule: FullRule)
    requires Forward(history, start)
    ensures Sum(Durations(history, start, rule)) == LastInstant(history, start, rule) - start
  {
    if history != [] {
      var init, last := history[..|history| - 1], history[|history| - 1];
      DurationsTelescope(init, start, rule);
      assert Durations(init, start, rule) + [] == Durations(init, start, rule);
      if last.Slot? {
        InstantNotLater(init, start, rule, last.at);
        SumOneMore(Durations(init, start, rule), Since(last.at, LastInstant(init, start, rule)));
      }
    }
  }

  lemma SumOneMore(durations: seq<nat>, duration: nat)
    ensures Sum(durations + [duration]) == Sum(durations) + duration
  {
    assert (durations + [duration])[..|durations|] == durations;
  }

  // Recoveries

  predicate IsRecovery(alert: Alert) {
    alert.TimekeeperRecovery?
  }

  /** How many times an extension ended a batch of timeouts. */
  function Resumptions(history: seq<Seen>, start: nat, rule: FullRule): nat {
    if history == [] then 0
    else
      var init, last := history[..|history| - 1], history[|history| - 1];
      Resumptions(init, start, rule)
      + if Extends(Window(init, start, rule), last) && Timeouts(init, start, rule) > 0 then 1 else 0
  }

  lemma {:induction false} NoRecoveryInSlowAlerts(window: seq<SlotDetails>, slot: nat, duration: nat, config: Config)
    requires slot > 0
    ensures Count(SlowAlerts(window, slot, duration, config), IsRecovery) == 0
  {
    var slow := if duration > config.perSlotThreshold then [SlowSlot(slot, slot - 1, duration)] else [];
    var average :=
      AverageAlerts(Push(window, SlotDetails(slot, duration), config.rule), slot, config.avgSlotThreshold);
    CountAppend(slow, average, IsRecovery);
    assert |slow| <= 1 && |average| <= 1;
  }

  lemma {:induction false} RoundRecoveries(before: seq<Seen>, seen: Seen, start: nat, config: Config)
    ensures Count(AlertsAt(before, seen, start, config), IsRecovery)
            == if Extends(Window(before, start, config.rule), seen) && Timeouts(before, start, config.rule) > 0
               then 1 else 0
  {
    if Extends(Window(before, start, config.rule), seen) {
      var window, missed := Window(before, start, config.rule), Timeouts(before, start, config.rule);
      var duration := Since(seen.at, LastInstant(before, start, config.rule));
      var recovery := if missed == 0 then [] else [TimekeeperRecovery(seen.slot, Times(SLOT_TIMEOUT, missed))];
      CountAppend(recovery, SlowAlerts(window, seen.slot, duration, config), IsRecovery);
      NoRecoveryInSlowAlerts(window, seen.slot, duration, config);
      assert |recovery| <= 1;
    }
  }

  /** One recovery per batch of timeouts that an extension ended. */
  lemma {:induction false} OneRecoveryPerResumption(history: seq<Seen>, start: nat, config: Config)
    ensures Count(AlertsOf(history, start, config), IsRecovery) == Resumptions(history, start, config.rule)
  {
    if history != [] {
      var init, last := history[..|history| - 1], history[|history| - 1];
      OneRecoveryPerResumption(init, start, config);
      CountAppend(AlertsOf(init, start, config), AlertsAt(init, last, start, config), IsRecovery);
      RoundRecoveries(init, last, start, config);
    }
  }

  // Silences

  /** The history with `count` timeouts after it. */
  function Silenced(before: seq<Seen>, count: nat): seq<Seen> {
    if count == 0 then before else Silenced(before, count - 1) + [TimedOut]
  }

  /** The stall alerts of `count` timeouts after a slot, when `missed` ones have not been reset before them. */
  function StallAlerts(lastSlot: nat, missed: nat, count: nat): seq<Alert> {
    if count == 0 then []
    else
      StallAlerts(lastSlot, missed, count - 1) + [TimekeeperStall(lastSlot, Times(SLOT_TIMEOUT, missed + count))]
  }

  lemma OneMoreAlerts(before: seq<Seen>, seen: Seen, start: nat, config: Config)
    ensures AlertsOf(before + [seen], start, config)
            == AlertsOf(before, start, config) + AlertsAt(before, seen, start, config)
  {
    assert (before + [seen])[..|before|] == before;
  }

  /** There is a slot, and this is the newest one. */
  predicate NewestIs(history: seq<Seen>, lastSlot: nat, start: nat, config: Config) {
    var window := Window(history, start, config.rule);
    window != [] && window[|window| - 1].slot == lastSlot
  }

  /** `after` is as `before`, with so many more timeouts. */
  ghost predicate OnlySilent(before: seq<Seen>, after: seq<Seen>, count: nat, start: nat, config: Config) {
    && Timeouts(after, start, config.rule) == Timeouts(before, start, config.rule) + count
    && Window(after, start, config.rule) == Window(before, start, config.rule)
    && LastInstant(after, start, config.rule) == LastInstant(before, start, config.rule)
  }

  lemma OneMoreTimeout(before: seq<Seen>, shorter: seq<Seen>, count: nat, start: nat, config: Config)
    requires OnlySilent(before, shorter, count, start, config)
    ensures OnlySilent(before, shorter + [TimedOut], count + 1, start, config)
  {
    assert (shorter + [TimedOut])[..|shorter|] == shorter;
  }

  /** So many timeouts later, so many more stall alerts have been sent. */
  ghost predicate Stalled(
    before: seq<Seen>, after: seq<Seen>, sent: seq<Alert>, lastSlot: nat, count: nat, start: nat, config: Config)
  {
    && OnlySilent(before, after, count, start, config)
    && AlertsOf(after, start, config) == sent + StallAlerts(lastSlot, Timeouts(before, start, config.rule), count)
  }

  lemma TimeoutAlert(
    before: seq<Seen>, shorter: seq<Seen>, lastSlot: nat, count: nat, start: nat, config: Config)
    requires NewestIs(before, lastSlot, start, config) && OnlySilent(before, shorter, count, start, config)
    ensures AlertsAt(shorter, TimedOut, start, config)
            == [TimekeeperStall(lastSlot, Times(SLOT_TIMEOUT, Timeouts(before, start, config.rule) + count + 1))]
  {
  }

  lemma MoreStalls(lastSlot: nat, missed: nat, count: nat)
    ensures StallAlerts(lastSlot, missed, count + 1)
            == StallAlerts(lastSlot, missed, count)
               + [TimekeeperStall(lastSlot, Times(SLOT_TIMEOUT, missed + count + 1))]
  {
  }

  lemma Joined(all: seq<Alert>, sent: seq<Alert>, stalls: seq<Alert>, more: seq<Alert>, longer: seq<Alert>)
    requires all == sent + stalls && longer == stalls + more
    ensures all + more == sent + longer
  {
  }

  /** One more timeout of a silence adds its stall alert. */
  lemma {:induction false} StallStep(
    before: seq<Seen>, shorter: seq<Seen>, sent: seq<Alert>, lastSlot: nat, count: nat, start: nat, config: Config)
    requires NewestIs(before, lastSlot, start, config)
    requires Stalled(before, shorter, sent, lastSlot, count, start, config)
    ensures Stalled(before, shorter + [TimedOut], sent, lastSlot, count + 1, start, config)
  {
    var missed := Timeouts(before, start, config.rule);
    OneMoreAlerts(shorter, TimedOut, start, config);
    OneMoreTimeout(before, shorter, count, start, config);
    TimeoutAlert(before, shorter, lastSlot, count, start, config);
    MoreStalls(lastSlot, missed, count);
    Joined(AlertsOf(shorter, start, config), sent, StallAlerts(lastSlot, missed, count),
           AlertsAt(shorter, TimedOut, start, config), StallAlerts(lastSlot, missed, count + 1));
  }

  lemma NoSilence(sent: seq<Alert>, lastSlot: nat, missed: nat)
    ensures sent + StallAlerts(lastSlot, missed, 0) == sent
  {
  }

  /** After a slot each timeout of a silence is alerted. */
  lemma {:induction false} SilenceAlerts(
    before: seq<Seen>, sent: seq<Alert>, lastSlot: nat, count: nat, start: nat, config: Config)
    requires NewestIs(before, lastSlot, start, config) && sent == AlertsOf(before, start, config)
    ensures Stalled(before, Silenced(before, count), sent, lastSlot, count, start, config)
    decreases count
  {
    NoSilence(sent, lastSlot, Timeouts(before, start, config.rule));
    var after := before;
    for k := 0 to count
      invariant after == Silenced(before, k) && Stalled(before, after, sent, lastSlot, k, start, config)
    {
      StallStep(before, after, sent, lastSlot, k, start, config);
      after := after + [TimedOut];
    }
  }

  /** Before any slot a timeout is not alerted. */
  ghost predicate Unheard(history: seq<Seen>, missed: nat, start: nat, config: Config) {
    && OnlySilent([], history, missed, start, config)
    && AlertsOf(history, start, config) == []
  }

  lemma UnheardStep(history: seq<Seen>, missed: nat, start: nat, config: Config)
    requires Unheard(history, missed, start, config)
    ensures Unheard(history + [TimedOut], missed + 1, start, config)
  {
    OneMoreAlerts(history, TimedOut, start, config);
    OneMoreTimeout([], history, missed, start, config);
  }

  lemma {:induction false} EarlyAlerts(count: nat, start: nat, config: Config)
    ensures Unheard(Silenced([], count), count, start, config)
  {
    var after: seq<Seen> := [];
    for k := 0 to count
      invariant after == Silenced([], k) && Unheard(after, k, start, config)
    {
      UnheardStep(after, k, start, config);
      after := after + [TimedOut];
    }
  }

  /** An extension after a silence reports all its timeouts, and those not reset before it, in its recovery. */
  lemma {:induction false} ExtensionStep(
    before: seq<Seen>, silent: seq<Seen>, sent: seq<Alert>, count: nat, slot: nat, at: nat, start: nat, config: Config)
    requires OnlySilent(before, silent, count, start, config) && AlertsOf(silent, start, config) == sent
    requires Extends(Window(before, start, config.rule), Slot(slot, at))
    requires Timeouts(before, start, config.rule) + count > 0
    ensures AlertsOf(silent + [Slot(slot, at)], start, config)
            == sent + [TimekeeperRecovery(slot, Times(SLOT_TIMEOUT, Timeouts(before, start, config.rule) + count))]
               + SlowAlerts(Window(before, start, config.rule), slot,
                            Since(at, LastInstant(before, start, config.rule)), config)
  {
    OneMoreAlerts(silent, Slot(slot, at), start, config);
    Assoc(sent, [TimekeeperRecovery(slot, Times(SLOT_TIMEOUT, Timeouts(before, start, config.rule) + count))],
          SlowAlerts(Window(before, start, config.rule), slot, Since(at, LastInstant(before, start, config.rule)),
                     config));
  }

  /**
   A silence of `count` timeouts ended by an extension: its stall alerts and then one recovery, all counted
   from the last extension on, so with the timeouts that came before the silence and were not reset.
   */
  lemma {:induction false} SilenceThenExtension(
    before: seq<Seen>, count: nat, slot: nat, at: nat, start: nat, config: Config)
    requires Extends(Window(before, start, config.rule), Slot(slot, at))
    requires Timeouts(before, start, config.rule) + count > 0
    ensures var missed := Timeouts(before, start, config.rule);
            AlertsOf(Silenced(before, count) + [Slot(slot, at)], start, config)
            == AlertsOf(before, start, config) + StallAlerts(slot - 1, missed, count)
               + [TimekeeperRecovery(slot, Times(SLOT_TIMEOUT, missed + count))]
               + SlowAlerts(Window(before, start, config.rule), slot,
                            Since(at, LastInstant(before, start, config.rule)), config)
  {
    var missed := Timeouts(before, start, config.rule);
    SilenceAlerts(before, AlertsOf(before, start, config), slot - 1, count, start, config);
    ExtensionStep(before, Silenced(before, count),
                  AlertsOf(before, start, config) + StallAlerts(slot - 1, missed, count),
                  count, slot, at, start, config);
  }

  /** Timeouts before the first slot send nothing, and the first slot does not reset them. */
  ghost predicate StartsLate(first: seq<Seen>, early: nat, slot: nat, at: nat, start: nat, config: Config) {
    && Timeouts(first, start, config.rule) == early
    && AlertsOf(first, start, config) == []
    && Window(first, start, config.rule) == [SlotDetails(slot, Since(at, start))]
    && LastInstant(first, start, config.rule) == at
  }

  lemma {:induction false} EarlySilence(
    silent: seq<Seen>, early: nat, slot: nat, at: nat, start: nat, config: Config)
    requires Unheard(silent, early, start, config)
    ensures StartsLate(silent + [Slot(slot, at)], early, slot, at, start, config)
  {
    OneMoreAlerts(silent, Slot(slot, at), start, config);
    var first := silent + [Slot(slot, at)];
    assert first[..|silent|] == silent;
    assert [] + [SlotDetails(slot, Since(at, start))] == [SlotDetails(slot, Since(at, start))];
  }

  lemma {:induction false} LateExtension(
    first: seq<Seen>, silent: seq<Seen>, early: nat, slot: nat, at: nat, count: nat, at': nat, start: nat,
    config: Config)
    requires StartsLate(first, early, slot, at, start, config) && early + count > 0
    requires Stalled(first, silent, [], slot, count, start, config)
    ensures AlertsOf(silent + [Slot(slot + 1, at')], start, config)
            == StallAlerts(slot, early, count) + [TimekeeperRecovery(slot + 1, Times(SLOT_TIMEOUT, early + count))]
               + SlowAlerts([SlotDetails(slot, Since(at, start))], slot + 1, Since(at', at), config)
  {
    NothingBefore(StallAlerts(slot, early, count));
    ExtensionStep(first, silent, StallAlerts(slot, early, count), count, slot + 1, at', start, config);
  }

  lemma NothingBefore(alerts: seq<Alert>)
    ensures [] + alerts == alerts
  {
  }

  /**
   So the timeouts before the first slot lengthen the stalls and the recovery of the first silence after it:
   `count` timeouts are reported as `early + count`, and a recovery comes with no stall alert before it when
   the first two slots have none between them.
   */
  lemma {:induction false} EarlySilenceLengthens(
    early: nat, slot: nat, at: nat, count: nat, at': nat, start: nat, config: Config)
    requires early + count > 0
    ensures AlertsOf(Silenced(Silenced([], early) + [Slot(slot, at)], count) + [Slot(slot + 1, at')], start, config)
            == StallAlerts(slot, early, count) + [TimekeeperRecovery(slot + 1, Times(SLOT_TIMEOUT, early + count))]
               + SlowAlerts([SlotDetails(slot, Since(at, start))], slot + 1, Since(at', at), config)
  {
    EarlyAlerts(early, start, config);
    EarlySilence(Silenced([], early), early, slot, at, start, config);
    var first := Silenced([], early) + [Slot(slot, at)];
    SilenceAlerts(first, [], slot, count, start, config);
    LateExtension(first, Silenced(first, count), early, slot, at, count, at', start, config);
  }
}
