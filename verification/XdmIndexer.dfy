/** The transfer processor: which of a block's events it stores, and in which order. */
module XdmIndexer {
  import opened Chain
  import opened Database
  import opened Outcomes
  import opened Segments
  import opened Xdm
  import opened XdmRows

  /** A block event; `stored` is what the transfer storage holds for an initiated transfer. */
  datatype RawEvent =
    | Initiated(chainId: ChainId, messageId: MessageId, stored: Option<Transfer>)
    | Failed(chainId: ChainId, messageId: MessageId)
    | Successful(chainId: ChainId, messageId: MessageId)
    | Incoming(chainId: ChainId, messageId: MessageId, amount: nat)
    | Unrelated

  datatype XdmError = InvalidChain(chain: ChainId) | Unreadable

  /** A block of either kind of chain: plain events, or events in segments. */
  datatype Source = Source(
    block: HashAndNumber, time: nat,
    events: seq<RawEvent>, segments: map<nat, seq<RawEvent>>, segmentSize: nat, eventCount: nat)

  /** The event as it is stored; nothing for an unrelated event or an unreadable transfer. */
  function AsEvent(raw: RawEvent): Option<Event> {
    match raw
    case Initiated(_, id, stored) =>
      if stored.Some? then Some(OutgoingTransferInitiated(id, stored.value)) else None
    case Failed(chainId, id) => Some(OutgoingTransferFailed(chainId, id))
    case Successful(chainId, id) => Some(OutgoingTransferSuccessful(chainId, id))
    case Incoming(chainId, id, amount) => Some(IncomingTransferSuccessful(chainId, id, amount))
    case Unrelated => None
  }

  /** Every initiated transfer's storage entry can be read. */
  predicate Readable(raws: seq<RawEvent>) {
    forall raw | raw in raws :: !(raw.Initiated? && raw.stored.None?)
  }

  datatype Kind = FailedKind | SuccessfulKind | IncomingKind | InitiatedKind

  predicate IsKind(raw: RawEvent, kind: Kind) {
    match kind
    case FailedKind => raw.Failed?
    case SuccessfulKind => raw.Successful?
    case IncomingKind => raw.Incoming?
    case InitiatedKind => raw.Initiated?
  }

  /** `as_events`: the events of one kind, in block order. */
  function AsEvents(raws: seq<RawEvent>, kind: Kind): seq<Event> {
    if raws == [] then []
    else
      var last := raws[|raws| - 1];
      AsEvents(raws[..|raws| - 1], kind)
      + if IsKind(last, kind) && AsEvent(last).Some? then [AsEvent(last).value] else []
  }

  /** All transfer events in block order. */
  function InBlockOrder(raws: seq<RawEvent>): seq<Event> {
    if raws == [] then []
    else
      InBlockOrder(raws[..|raws| - 1])
      + if AsEvent(raws[|raws| - 1]).Some? then [AsEvent(raws[|raws| - 1]).value] else []
  }

  /** How many events of a kind are stored as `e`. */
  function Times(raws: seq<RawEvent>, kind: Kind, e: Event): nat {
    if raws == [] then 0
    else
      var last := raws[|raws| - 1];
      Times(raws[..|raws| - 1], kind, e) + if IsKind(last, kind) && AsEvent(last) == Some(e) then 1 else 0
  }

  lemma {:induction false} TimesOfKind(raws: seq<RawEvent>, kind: Kind, e: Event)
    ensures multiset(AsEvents(raws, kind))[e] == Times(raws, kind, e)
  {
    if raws != [] {
      TimesOfKind(raws[..|raws| - 1], kind, e);
    }
  }

  /** Every transfer event is of exactly one kind. */
  lemma OneKind(raw: RawEvent, e: Event)
    ensures (if AsEvent(raw) == Some(e) then 1 else 0)
            == (if IsKind(raw, FailedKind) && AsEvent(raw) == Some(e) then 1 else 0)
               + (if IsKind(raw, SuccessfulKind) && AsEvent(raw) == Some(e) then 1 else 0)
               + (if IsKind(raw, IncomingKind) && AsEvent(raw) == Some(e) then 1 else 0)
               + (if IsKind(raw, InitiatedKind) && AsEvent(raw) == Some(e) then 1 else 0)
  {
  }

  lemma OneMoreInOrder(raws: seq<RawEvent>, e: Event)
    requires raws != []
    ensures multiset(InBlockOrder(raws))[e]
            == multiset(InBlockOrder(raws[..|raws| - 1]))[e] + if AsEvent(raws[|raws| - 1]) == Some(e) then 1 else 0
  {
  }

  lemma {:induction false} TimesInOrder(raws: seq<RawEvent>, e: Event)
    ensures multiset(InBlockOrder(raws))[e]
            == Times(raws, FailedKind, e) + Times(raws, SuccessfulKind, e)
               + Times(raws, IncomingKind, e) + Times(raws, InitiatedKind, e)
  {
    if raws != [] {
      TimesInOrder(raws[..|raws| - 1], e);
      OneMoreInOrder(raws, e);
      OneKind(raws[|raws| - 1], e);
    }
  }

  /** The order of extraction: by kind, and in block order within a kind. */
  function ByKind(raws: seq<RawEvent>): seq<Event> {
    AsEvents(raws, FailedKind) + AsEvents(raws, SuccessfulKind)
    + AsEvents(raws, IncomingKind) + AsEvents(raws, InitiatedKind)
  }

  lemma Pieces(raws: seq<RawEvent>, e: Event)
    ensures multiset(ByKind(raws))[e]
            == multiset(AsEvents(raws, FailedKind))[e] + multiset(AsEvents(raws, SuccessfulKind))[e]
               + multiset(AsEvents(raws, IncomingKind))[e] + multiset(AsEvents(raws, InitiatedKind))[e]
  {
  }

  /** Extraction only reorders: it yields every transfer event of the block, once each. */
  lemma {:induction false} KindsCoverAll(raws: seq<RawEvent>)
    ensures multiset(ByKind(raws)) == multiset(InBlockOrder(raws))
  {
    forall e
      ensures multiset(ByKind(raws))[e] == multiset(InBlockOrder(raws))[e]
    {
      Pieces(raws, e);
      TimesOfKind(raws, FailedKind, e);
      TimesOfKind(raws, SuccessfulKind, e);
      TimesOfKind(raws, IncomingKind, e);
      TimesOfKind(raws, InitiatedKind, e);
      TimesInOrder(raws, e);
    }
  }

  // What is extracted, event by event

  /** The event stored for this block event: same chain, message and amount, or the transfer that storage holds. */
  ghost predicate StoresAs(raw: RawEvent, event: Event) {
    match raw
    case Initiated(_, id, stored) =>
      && event.OutgoingTransferInitiated? && event.messageId == id
      && stored.Some? && event.transfer == stored.value
    case Failed(chainId, id) => event.OutgoingTransferFailed? && event.chainId == chainId && event.messageId == id
    case Successful(chainId, id) =>
      event.OutgoingTransferSuccessful? && event.chainId == chainId && event.messageId == id
    case Incoming(chainId, id, amount) =>
      && event.IncomingTransferSuccessful? && event.chainId == chainId && event.messageId == id
      && event.amount == amount
    case Unrelated => false
  }

  /** How many of the first `n` events are of the kind. */
  function OfKindBefore(raws: seq<RawEvent>, kind: Kind, n: nat): nat
    requires n <= |raws|
  {
    |set j | 0 <= j < n && IsKind(raws[j], kind)|
  }

  lemma OneMoreOfKind(raws: seq<RawEvent>, kind: Kind, n: nat)
    requires n < |raws|
    ensures OfKindBefore(raws, kind, n + 1) == OfKindBefore(raws, kind, n) + if IsKind(raws[n], kind) then 1 else 0
  {
    var before := set j | 0 <= j < n && IsKind(raws[j], kind);
    var after := set j | 0 <= j < n + 1 && IsKind(raws[j], kind);
    if IsKind(raws[n], kind) {
      assert after == before + {n};
    } else {
      assert after == before;
    }
  }

  /** The events of a kind among the first `n`: as many as there are, each at its place among them. */
  ghost predicate Placed(raws: seq<RawEvent>, kind: Kind, n: nat, events: seq<Event>)
    requires n <= |raws|
  {
    && |events| == OfKindBefore(raws, kind, n)
    && forall i | 0 <= i < n && IsKind(raws[i], kind) ::
         OfKindBefore(raws, kind, i) < |events| && StoresAs(raws[i], events[OfKindBefore(raws, kind, i)])
  }

  lemma PlacedOneMore(raws: seq<RawEvent>, kind: Kind, n: nat, events: seq<Event>, more: seq<Event>)
    requires n < |raws| && Placed(raws, kind, n, events)
    requires if IsKind(raws[n], kind) then |more| == 1 && StoresAs(raws[n], more[0]) else more == []
    ensures Placed(raws, kind, n + 1, events + more)
  {
    OneMoreOfKind(raws, kind, n);
  }

  lemma {:induction false} ExtractedOfKind(raws: seq<RawEvent>, kind: Kind, n: nat)
    requires n <= |raws| && Readable(raws)
    ensures Placed(raws, kind, n, AsEvents(raws[..n], kind))
  {
    if n > 0 {
      ExtractedOfKind(raws, kind, n - 1);
      assert raws[..n][..n - 1] == raws[..n - 1];
      assert raws[n - 1] in raws;
      PlacedOneMore(raws, kind, n - 1, AsEvents(raws[..n - 1], kind),
                    if IsKind(raws[n - 1], kind) then [AsEvent(raws[n - 1]).value] else []);
    }
  }

  /** Failed transfers come first, then successful ones, then incoming ones, then initiated ones. */
  predicate InTurn(first: Event, second: Event) {
    match first
    case OutgoingTransferFailed(_, _) => true
    case OutgoingTransferSuccessful(_, _) => !second.OutgoingTransferFailed?
    case IncomingTransferSuccessful(_, _, _) => second.IncomingTransferSuccessful? || second.OutgoingTransferInitiated?
    case OutgoingTransferInitiated(_, _) => second.OutgoingTransferInitiated?
  }

  lemma {:induction false} EventsOfKind(raws: seq<RawEvent>, kind: Kind)
    ensures forall event | event in AsEvents(raws, kind) ::
              match kind
              case FailedKind => event.OutgoingTransferFailed?
              case SuccessfulKind => event.OutgoingTransferSuccessful?
              case IncomingKind => event.IncomingTransferSuccessful?
              case InitiatedKind => event.OutgoingTransferInitiated?
  {
    if raws != [] {
      EventsOfKind(raws[..|raws| - 1], kind);
    }
  }

  lemma PlaceInFour(a: seq<Event>, b: seq<Event>, c: seq<Event>, d: seq<Event>, i: nat)
    requires i < |a + b + c + d|
    ensures var event := (a + b + c + d)[i];
            if i < |a| then event in a
            else if i < |a| + |b| then event in b
            else if i < |a| + |b| + |c| then event in c
            else event in d
  {
  }

  lemma {:induction false} KindsInTurn(raws: seq<RawEvent>, i: nat, j: nat)
    requires i < j < |ByKind(raws)|
    ensures InTurn(ByKind(raws)[i], ByKind(raws)[j])
  {
    var a, b := AsEvents(raws, FailedKind), AsEvents(raws, SuccessfulKind);
    var c, d := AsEvents(raws, IncomingKind), AsEvents(raws, InitiatedKind);
    EventsOfKind(raws, FailedKind);
    EventsOfKind(raws, SuccessfulKind);
    EventsOfKind(raws, IncomingKind);
    EventsOfKind(raws, InitiatedKind);
    PlaceInFour(a, b, c, d, i);
    PlaceInFour(a, b, c, d, j);
  }

  /** Where the events of a kind begin in the extracted sequence. */
  function KindStart(raws: seq<RawEvent>, kind: Kind): nat {
    var n := |raws|;
    match kind
    case FailedKind => 0
    case SuccessfulKind => OfKindBefore(raws, FailedKind, n)
    case IncomingKind => OfKindBefore(raws, FailedKind, n) + OfKindBefore(raws, SuccessfulKind, n)
    case InitiatedKind =>
      OfKindBefore(raws, FailedKind, n) + OfKindBefore(raws, SuccessfulKind, n) + OfKindBefore(raws, IncomingKind, n)
  }

  /** Each event of the kind is stored at its place among them, counted from `start`. */
  ghost predicate PlacedFrom(raws: seq<RawEvent>, kind: Kind, start: nat, all: seq<Event>) {
    forall i | 0 <= i < |raws| && IsKind(raws[i], kind) ::
      && start + OfKindBefore(raws, kind, i) < |all|
      && StoresAs(raws[i], all[start + OfKindBefore(raws, kind, i)])
  }

  /**
   Every transfer event of a readable block is stored, at its place among its kind, with its own chain, message
   and amount or transfer; and as many events are stored as there are.
   */
  lemma {:induction false} ExtractedAtItsPlace(raws: seq<RawEvent>, kind: Kind)
    requires Readable(raws)
    ensures |ByKind(raws)| == KindStart(raws, InitiatedKind) + OfKindBefore(raws, InitiatedKind, |raws|)
    ensures PlacedFrom(raws, kind, KindStart(raws, kind), ByKind(raws))
  {
    var a, b := AsEvents(raws, FailedKind), AsEvents(raws, SuccessfulKind);
    var c, d := AsEvents(raws, IncomingKind), AsEvents(raws, InitiatedKind);
    ExtractedOfKinds(raws);
    OfWholeKind(raws, kind);
    FourParts(a, b, c, d);
    match kind
    case FailedKind => StandsIn(raws, kind, [], a, b + c + d, ByKind(raws));
    case SuccessfulKind => StandsIn(raws, kind, a, b, c + d, ByKind(raws));
    case IncomingKind => StandsIn(raws, kind, a + b, c, d, ByKind(raws));
    case InitiatedKind => StandsIn(raws, kind, a + b + c, d, [], ByKind(raws));
  }

  lemma StandsIn(
    raws: seq<RawEvent>, kind: Kind, before: seq<Event>, part: seq<Event>, rest: seq<Event>, all: seq<Event>)
    requires Placed(raws, kind, |raws|, part) && all == before + part + rest
    ensures PlacedFrom(raws, kind, |before|, all)
  {
    assert forall j | 0 <= j < |part| :: all[|before| + j] == part[j];
  }

  lemma {:induction false} OfWholeKind(raws: seq<RawEvent>, kind: Kind)
    requires Readable(raws)
    ensures Placed(raws, kind, |raws|, AsEvents(raws, kind))
  {
    assert raws[..|raws|] == raws;
    ExtractedOfKind(raws, kind, |raws|);
  }

  lemma {:induction false} ExtractedOfKinds(raws: seq<RawEvent>)
    requires Readable(raws)
    ensures |AsEvents(raws, FailedKind)| == OfKindBefore(raws, FailedKind, |raws|)
    ensures |AsEvents(raws, SuccessfulKind)| == OfKindBefore(raws, SuccessfulKind, |raws|)
    ensures |AsEvents(raws, IncomingKind)| == OfKindBefore(raws, IncomingKind, |raws|)
    ensures |AsEvents(raws, InitiatedKind)| == OfKindBefore(raws, InitiatedKind, |raws|)
  {
    OfWholeKind(raws, FailedKind);
    OfWholeKind(raws, SuccessfulKind);
    OfWholeKind(raws, IncomingKind);
    OfWholeKind(raws, InitiatedKind);
  }

  lemma FourParts(a: seq<Event>, b: seq<Event>, c: seq<Event>, d: seq<Event>)
    ensures a + b + c + d == [] + a + (b + c + d)
    ensures a + b + c + d == a + b + (c + d)
    ensures a + b + c + d == a + b + c + d + []
  {
  }

  /** The initiated transfers with what storage holds for them; fails at an unreadable one. */
  method ReadInitiated(raws: seq<RawEvent>) returns (r: Result<seq<Event>, XdmError>)
    ensures r.Ok? <==> Readable(raws)
    ensures r.Ok? ==> r.value == AsEvents(raws, InitiatedKind)
    ensures r.Err? ==> r.error == Unreadable
  {
    var events: seq<Event> := [];
    for i := 0 to |raws|
      invariant Readable(raws[..i]) && events == AsEvents(raws[..i], InitiatedKind)
    {
      assert raws[..i + 1][..i] == raws[..i] && raws[..i + 1] == raws[..i] + [raws[i]];
      match raws[i]
      case Initiated(_, id, stored) =>
        if stored.None? {
          return Err(Unreadable);
        }
        events := events + [OutgoingTransferInitiated(id, stored.value)];
      case _ =>
    }
    assert raws[..|raws|] == raws;
    r := Ok(events);
  }

  /** The events a chain's processor looks at; only consensus and domain 0 are known. */
  function BlockEvents(chain: ChainId, source: Source): Option<seq<RawEvent>>
    requires source.segmentSize > 0
  {
    match chain
    case Consensus => Some(source.events)
    case Domain(id) =>
      if id == 0 then
        Some(Truncated(Joined(source.segments, source.eventCount / source.segmentSize + 1), source.eventCount))
      else None
  }

  method ExtractXdmEventsForBlock(chain: ChainId, source: Source) returns (r: Result<seq<Event>, XdmError>)
    requires source.segmentSize > 0
    ensures r.Ok? <==> BlockEvents(chain, source).Some? && Readable(BlockEvents(chain, source).value)
    ensures r == Err(InvalidChain(chain)) <==> chain.Domain? && chain.id != 0
    ensures r.Ok? ==>
              var raws := BlockEvents(chain, source).value;
              && r.value == ByKind(raws)
              && multiset(r.value) == multiset(InBlockOrder(raws))
    ensures chain == Consensus && Readable(source.events) ==> r == Ok(ByKind(source.events))
    ensures chain == Domain(0) ==>
              forall raws | |raws| == source.eventCount && HoldsEach(source.segments, source.segmentSize, raws)
                            && Readable(raws) :: r == Ok(ByKind(raws))
  {
    var blockEvents := source.events;
    match chain {
      case Consensus =>
      case Domain(id) =>
        if id != 0 {
          return Err(InvalidChain(chain));
        }
        blockEvents := EventsFromSegments(source.segments, source.segmentSize, source.eventCount);
    }
    var events := AsEvents(blockEvents, FailedKind);
    events := events + AsEvents(blockEvents, SuccessfulKind);
    events := events + AsEvents(blockEvents, IncomingKind);
    var initiated := ReadInitiated(blockEvents);
    if initiated.Err? {
      return Err(initiated.error);
    }
    events := events + initiated.value;
    KindsCoverAll(blockEvents);
    r := Ok(events);
  }

  lemma {:induction false} StoredMembers(
    chain: ChainId, block: HashAndNumber, time: nat, events: seq<Event>, s: Stored)
    ensures s in StoredBy(chain, block, time, events)
            <==> s.chain == chain && s.block == block && s.time == time && s.event in events
  {
    if events != [] {
      StoredMembers(chain, block, time, events[..|events| - 1], s);
      assert events == events[..|events| - 1] + [events[|events| - 1]];
    }
  }

  /**
   One block. On success the extracted events have been stored, kind after kind; when they are
   conflict-free with what was stored before, the table also is that of storing them in block order.
   */
  method IndexEventsForBlock(chain: ChainId, source: Source, db: Db, ghost before: seq<Stored>)
    returns (r: Result<(), XdmError>)
    requires source.segmentSize > 0
    requires db.xdmTransfers == StoreAll(map[], before)
    modifies db`xdmTransfers
    ensures r.Ok? <==> BlockEvents(chain, source).Some? && Readable(BlockEvents(chain, source).value)
    ensures r.Err? ==> db.xdmTransfers == old(db.xdmTransfers)
    ensures r.Ok? ==>
              var extracted := ByKind(BlockEvents(chain, source).value);
              db.xdmTransfers
              == StoreAll(old(db.xdmTransfers), StoredBy(chain, source.block, source.time, extracted))
    ensures r.Ok? ==>
              var inOrder := StoredBy(chain, source.block, source.time, InBlockOrder(BlockEvents(chain, source).value));
              ConflictFree(before + inOrder) ==> db.xdmTransfers == StoreAll(map[], before + inOrder)
  {
    var events := ExtractXdmEventsForBlock(chain, source);
    if events.Err? {
      return Err(events.error);
    }
    if events.value != [] {
      db.StoreEvents(chain, source.block, source.time, events.value);
    }
    OrderInBlockIrrelevant(chain, source.block, source.time, events.value,
                           InBlockOrder(BlockEvents(chain, source).value), before);
    r := Ok(());
  }

  lemma {:induction false} OrderInBlockIrrelevant(
    chain: ChainId, block: HashAndNumber, time: nat, extracted: seq<Event>, inOrder: seq<Event>, before: seq<Stored>)
    requires multiset(extracted) == multiset(inOrder)
    ensures ConflictFree(before + StoredBy(chain, block, time, inOrder)) ==>
              StoreAll(StoreAll(map[], before), StoredBy(chain, block, time, extracted))
              == StoreAll(map[], before + StoredBy(chain, block, time, inOrder))
  {
    var a, b := StoredBy(chain, block, time, inOrder), StoredBy(chain, block, time, extracted);
    StoreAllAppend(map[], before, b);
    forall s
      ensures s in a <==> s in b
    {
      StoredMembers(chain, block, time, inOrder, s);
      StoredMembers(chain, block, time, extracted, s);
      assert s.event in multiset(inOrder) <==> s.event in multiset(extracted);
    }
    if ConflictFree(before + a) {
      SameEventsSameTable(before + a, before + b);
    }
  }

  // Checkpoint keys

  const STAKING_CHECKPOINT_KEY := "staking_processor_Consensus"

  function XdmProcessorKey(chain: ChainId): string {
    "xdm_processor_" + ChainText(chain)
  }

  /** The keys in the table of checkpoints. */
  lemma {:induction false} CheckpointKeysNameChains(chain: ChainId)
    ensures |XdmProcessorKey(chain)| > 14 && XdmProcessorKey(chain)[..14] == "xdm_processor_"
    ensures NamesChain(XdmProcessorKey(chain)[14..], chain)
  {
    ChainTextNames(chain);
    assert XdmProcessorKey(chain)[14..] == ChainText(chain);
  }

  /** No two processors share a checkpoint. */
  lemma {:induction false} CheckpointKeysDiffer(a: ChainId, b: ChainId)
    ensures XdmProcessorKey(a) == XdmProcessorKey(b) <==> a == b
    ensures XdmProcessorKey(a) != STAKING_CHECKPOINT_KEY
  {
    var prefix := "xdm_processor_";
    assert XdmProcessorKey(a)[|prefix|..] == ChainText(a) && XdmProcessorKey(b)[|prefix|..] == ChainText(b);
    if ChainText(a) == ChainText(b) {
      ChainTextInjective(a, b);
    }
    assert XdmProcessorKey(a)[0] == 'x';
  }
}
