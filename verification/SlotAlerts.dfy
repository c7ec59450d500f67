/** What the slot monitor keeps and sends, said of the timekeeper chain alone. */
module SlotAlerts {
  import opened Silence
  import opened Slots

  // The chain

  /** The slot that the next one has to follow: a full window that drops new slots stays at its 600th. */
  function Newest(chain: seq<Seen>, rule: FullRule): Seen
    requires chain != []
  {
    if rule.DropNew? && |chain| > 600 then chain[599] else chain[|chain| - 1]
  }

  /** The gossiped slots that make up the timekeeper chain: the first one, and those that follow the newest. */
  function Chain(history: seq<Seen>, rule: FullRule): (chain: seq<Seen>)
    ensures forall seen | seen in chain :: seen.Slot?
  {
    if history == [] then []
    else
      var chain, last := Chain(history[..|history| - 1], rule), history[|history| - 1];
      if last.Slot? && (chain == [] || (Newest(chain, rule).Slot? && last.slot == Newest(chain, rule).slot + 1))
      then chain + [last] else chain
  }

  /** The instant of a slot's predecessor, or the monitor's start. */
  function InstantBefore(chain: seq<Seen>, i: nat, start: nat): nat
    requires i <= |chain| && forall seen | seen in chain :: seen.Slot?
  {
    if i == 0 then start else
      assert chain[i - 1] in chain;
      chain[i - 1].at
  }

  /** How long a slot took: from its predecessor's instant to its own, or nothing if that is earlier. */
  function Gap(chain: seq<Seen>, i: nat, start: nat): nat
    requires i < |chain| && forall seen | seen in chain :: seen.Slot?
  {
    var before, at := InstantBefore(chain, i, start), InstantBefore(chain, i + 1, start);
    if at < before then 0 else at - before
  }

  /** Which of `n` chain slots is the window's `i`-th. */
  function KeptIndex(i: nat, n: nat, rule: FullRule): nat
    requires i < n && i < 600
  {
    if n <= 600 then i
    else
      match rule
      case DropOldest => n - 600 + i
      case ReplaceNewest => if i < 599 then i else n - 1
      case DropNew => i
  }

  /** The window holds at most 600 slots of the chain, each with the time it took. */
  ghost predicate WindowHolds(window: seq<SlotDetails>, chain: seq<Seen>, start: nat, rule: FullRule)
    requires forall seen | seen in chain :: seen.Slot?
  {
    && |window| == (if |chain| < 600 then |chain| else 600)
    && forall i | 0 <= i < |window| ::
         var k := KeptIndex(i, |chain|, rule);
         window[i].slot == SlotAt(chain, k) && window[i].duration == Gap(chain, k, start)
  }

  function SlotAt(chain: seq<Seen>, i: nat): nat
    requires i < |chain| && forall seen | seen in chain :: seen.Slot?
  {
    assert chain[i] in chain;
    chain[i].slot
  }

  lemma EarlierGaps(chain: seq<Seen>, last: Seen, i: nat, start: nat)
    requires i < |chain| && last.Slot? && forall seen | seen in chain :: seen.Slot?
    ensures Gap(chain + [last], i, start) == Gap(chain, i, start)
    ensures SlotAt(chain + [last], i) == SlotAt(chain, i)
  {
  }

  lemma LastGap(chain: seq<Seen>, last: Seen, start: nat)
    requires last.Slot? && forall seen | seen in chain :: seen.Slot?
    ensures Gap(chain + [last], |chain|, start) == Since(last.at, InstantBefore(chain, |chain|, start))
    ensures SlotAt(chain + [last], |chain|) == last.slot
  {
  }

  lemma {:induction false} PushKeeps(
    window: seq<SlotDetails>, chain: seq<Seen>, last: Seen, start: nat, rule: FullRule)
    requires last.Slot? && forall seen | seen in chain :: seen.Slot?
    requires WindowHolds(window, chain, start, rule)
    ensures WindowHolds(
              Push(window, SlotDetails(last.slot, Since(last.at, InstantBefore(chain, |chain|, start))), rule),
              chain + [last], start, rule)
  {
    var details := SlotDetails(last.slot, Since(last.at, InstantBefore(chain, |chain|, start)));
    var after := Push(window, details, rule);
    forall i | 0 <= i < |after|
      ensures var k := KeptIndex(i, |chain| + 1, rule);
              after[i].slot == SlotAt(chain + [last], k) && after[i].duration == Gap(chain + [last], k, start)
    {
      var k := KeptIndex(i, |chain| + 1, rule);
      if k < |chain| {
        PushedEarlier(window, details, |chain|, rule, i);
        EarlierGaps(chain, last, k, start);
      } else {
        PushedLast(window, details, |chain|, rule, i);
        LastGap(chain, last, start);
      }
    }
  }

  lemma PushedEarlier(window: seq<SlotDetails>, details: SlotDetails, n: nat, rule: FullRule, i: nat)
    requires |window| == (if n < 600 then n else 600) && i < |Push(window, details, rule)|
    requires KeptIndex(i, n + 1, rule) < n
    ensures exists j | 0 <= j < |window| ::
              window[j] == Push(window, details, rule)[i] && KeptIndex(j, n, rule) == KeptIndex(i, n + 1, rule)
  {
    var j := if n >= 600 && rule.DropOldest? then i + 1 else i;
    assert window[j] == Push(window, details, rule)[i] && KeptIndex(j, n, rule) == KeptIndex(i, n + 1, rule);
  }

  lemma PushedLast(window: seq<SlotDetails>, details: SlotDetails, n: nat, rule: FullRule, i: nat)
    requires |window| == (if n < 600 then n else 600) && i < |Push(window, details, rule)|
    requires KeptIndex(i, n + 1, rule) >= n
    ensures KeptIndex(i, n + 1, rule) == n && Push(window, details, rule)[i] == details
  {
  }

  lemma NewestIsLast(window: seq<SlotDetails>, chain: seq<Seen>, start: nat, rule: FullRule)
    requires (forall seen | seen in chain :: seen.Slot?) && WindowHolds(window, chain, start, rule)
    ensures window == [] <==> chain == []
    ensures chain != [] ==> Newest(chain, rule).Slot? && window[|window| - 1].slot == Newest(chain, rule).slot
  {
    if chain != [] {
      assert Newest(chain, rule) in chain;
    }
  }

  /** The window and the last instant are those of the chain. */
  lemma {:induction false} WindowOfChain(history: seq<Seen>, start: nat, rule: FullRule)
    ensures var chain := Chain(history, rule);
            && WindowHolds(Window(history, start, rule), chain, start, rule)
            && LastInstant(history, start, rule) == InstantBefore(chain, |chain|, start)
  {
    if history != [] {
      var init, last := history[..|history| - 1], history[|history| - 1];
      WindowOfChain(init, start, rule);
      NewestIsLast(Window(init, start, rule), Chain(init, rule), start, rule);
      if last.Slot? {
        PushKeeps(Window(init, start, rule), Chain(init, rule), last, start, rule);
      }
    }
  }

  // Timeouts

  /** The slot extends a chain that has begun. */
  predicate ExtendsChain(before: seq<Seen>, seen: Seen, rule: FullRule) {
    Chain(before, rule) != [] && |Chain(before + [seen], rule)| > |Chain(before, rule)|
  }

  lemma {:induction false} ExtendsAlike(before: seq<Seen>, seen: Seen, start: nat, rule: FullRule)
    ensures ExtendsChain(before, seen, rule) <==> Extends(Window(before, start, rule), seen)
    ensures ExtendsChain(before, seen, rule) ==>
              seen.Slot? && seen.slot == Newest(Chain(before, rule), rule).slot + 1
              && Chain(before + [seen], rule) == Chain(before, rule) + [seen]
  {
    assert (before + [seen])[..|before|] == before;
    WindowOfChain(before, start, rule);
    NewestIsLast(Window(before, start, rule), Chain(before, rule), start, rule);
  }

  /** A timeout counts one more; an extension starts again from none; any other slot changes nothing. */
  lemma {:induction false} TimeoutsStep(before: seq<Seen>, seen: Seen, start: nat, rule: FullRule)
    ensures Timeouts([], start, rule) == 0
    ensures Timeouts(before + [seen], start, rule)
            == if seen.TimedOut? then Timeouts(before, start, rule) + 1
               else if ExtendsChain(before, seen, rule) then 0
               else Timeouts(before, start, rule)
  {
    assert (before + [seen])[..|before|] == before;
    ExtendsAlike(before, seen, start, rule);
  }

  // Averages

  /** The durations that the window keeps of the chain. */
  function KeptGaps(chain: seq<Seen>, start: nat, rule: FullRule): seq<nat>
    requires forall seen | seen in chain :: seen.Slot?
  {
    seq(if |chain| < 600 then |chain| else 600,
        i requires 0 <= i < |chain| && i < 600 => Gap(chain, KeptIndex(i, |chain|, rule), start))
  }

  lemma {:induction false} TotalIsSum(window: seq<SlotDetails>, durations: seq<nat>)
    requires |window| == |durations| && forall i | 0 <= i < |window| :: window[i].duration == durations[i]
    ensures Total(window) == Sum(durations)
  {
    if window != [] {
      TotalIsSum(window[..|window| - 1], durations[..|durations| - 1]);
    }
  }

  /** The chain's instants never go back. */
  ghost predicate InOrder(chain: seq<Seen>, start: nat)
    requires forall seen | seen in chain :: seen.Slot?
  {
    forall i | 0 <= i < |chain| :: InstantBefore(chain, i, start) <= InstantBefore(chain, i + 1, start)
  }

  lemma {:induction false} GapsTelescope(chain: seq<Seen>, from: nat, gaps: seq<nat>, start: nat)
    requires (forall seen | seen in chain :: seen.Slot?) && InOrder(chain, start)
    requires from + |gaps| <= |chain| && forall i | 0 <= i < |gaps| :: gaps[i] == Gap(chain, from + i, start)
    ensures Sum(gaps) == InstantBefore(chain, from + |gaps|, start) - InstantBefore(chain, from, start)
  {
    if gaps != [] {
      GapsTelescope(chain, from, gaps[..|gaps| - 1], start);
    }
  }

  /** When the oldest slot makes room, the window's durations add up to the time its 600 slots took. */
  lemma {:induction false} WindowSpan(chain: seq<Seen>, start: nat)
    requires (forall seen | seen in chain :: seen.Slot?) && InOrder(chain, start) && |chain| >= 600
    ensures Sum(KeptGaps(chain, start, DropOldest))
            == InstantBefore(chain, |chain|, start) - InstantBefore(chain, |chain| - 600, start)
  {
    GapsTelescope(chain, |chain| - 600, KeptGaps(chain, start, DropOldest), start);
  }

  // Alerts

  lemma {:induction false} StallTime(count: nat)
    ensures Times(SLOT_TIMEOUT, count) == Capped(30_000_000_000 * count)
  {
    TimesIsCapped(SLOT_TIMEOUT, count);
  }

  /** Before the chain begins a timeout sends nothing; then it reports the newest slot and 30 seconds per timeout. */
  lemma {:induction false} TimeoutAlerts(before: seq<Seen>, start: nat, config: Config)
    ensures var chain, missed := Chain(before, config.rule), Timeouts(before, start, config.rule);
            AlertsOf(before + [TimedOut], start, config)
            == AlertsOf(before, start, config)
               + if chain == [] then []
                 else [TimekeeperStall(SlotAt([Newest(chain, config.rule)], 0), Capped(30_000_000_000 * (missed + 1)))]
  {
    WindowOfChain(before, start, config.rule);
    NewestIsLast(Window(before, start, config.rule), Chain(before, config.rule), start, config.rule);
    StallTime(Timeouts(before, start, config.rule) + 1);
    OneMoreAlerts(before, TimedOut, start, config);
  }

  /** A slot that does not extend the chain sends nothing. */
  lemma {:induction false} OtherSlotsAreSilent(before: seq<Seen>, seen: Seen, start: nat, config: Config)
    requires seen.Slot? && !ExtendsChain(before, seen, config.rule)
    ensures AlertsOf(before + [seen], start, config) == AlertsOf(before, start, config)
  {
    ExtendsAlike(before, seen, start, config.rule);
    OneMoreAlerts(before, seen, start, config);
  }

  /** The chain's last slot took longer than the threshold for one slot. */
  predicate LastIsSlow(chain: seq<Seen>, start: nat, threshold: nat)
    requires forall seen | seen in chain :: seen.Slot?
  {
    chain != [] && Gap(chain, |chain| - 1, start) > threshold
  }

  /** The window is full and its durations average more than the threshold. */
  predicate AverageIsSlow(chain: seq<Seen>, start: nat, rule: FullRule, threshold: nat)
    requires forall seen | seen in chain :: seen.Slot?
  {
    |chain| >= 600 && Sum(KeptGaps(chain, start, rule)) / 600 > threshold
  }

  lemma {:induction false} AverageAlertsOfChain(
    window: seq<SlotDetails>, chain: seq<Seen>, slot: nat, threshold: nat, start: nat, rule: FullRule)
    requires (forall seen | seen in chain :: seen.Slot?) && WindowHolds(window, chain, start, rule)
    ensures AverageAlerts(window, slot, threshold)
            == if AverageIsSlow(chain, start, rule, threshold)
               then [AvgSlowSlots(slot, 600, Sum(KeptGaps(chain, start, rule)) / 600)] else []
  {
    TotalIsSum(window, KeptGaps(chain, start, rule));
  }

  /**
   An extension sends, in this order and only if they apply: a recovery of 30 seconds per timeout since the
   last extension, the slow slot with its predecessor and its time, and the average of a full window.
   */
  lemma {:induction false} ExtensionAlerts(before: seq<Seen>, slot: nat, at: nat, start: nat, config: Config)
    requires ExtendsChain(before, Slot(slot, at), config.rule)
    ensures var chain, missed := Chain(before + [Slot(slot, at)], config.rule), Timeouts(before, start, config.rule);
            && slot > 0 && chain != []
            && AlertsOf(before + [Slot(slot, at)], start, config)
               == AlertsOf(before, start, config)
                  + ((if missed == 0 then [] else [TimekeeperRecovery(slot, Capped(30_000_000_000 * missed))])
                     + ((if LastIsSlow(chain, start, config.perSlotThreshold)
                         then [SlowSlot(slot, slot - 1, Gap(chain, |chain| - 1, start))] else [])
                        + if AverageIsSlow(chain, start, config.rule, config.avgSlotThreshold)
                          then [AvgSlowSlots(slot, 600, Sum(KeptGaps(chain, start, config.rule)) / 600)] else []))
  {
    var seen, shorter := Slot(slot, at), Chain(before, config.rule);
    var window := Window(before, start, config.rule);
    ExtendsAlike(before, seen, start, config.rule);
    WindowOfChain(before, start, config.rule);
    LastGap(shorter, seen, start);
    StallTime(Timeouts(before, start, config.rule));
    PushKeeps(window, shorter, seen, start, config.rule);
    AverageAlertsOfChain(
      Push(window, SlotDetails(slot, Since(at, InstantBefore(shorter, |shorter|, start))), config.rule),
      shorter + [seen], slot, config.avgSlotThreshold, start, config.rule);
    OneMoreAlerts(before, seen, start, config);
  }
}
