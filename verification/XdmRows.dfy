/** What stored transfer events leave in the table, column by column. */
module XdmRows {
  import opened Xdm

  // Row keys as text

  predicate IsDigit(c: char) {
    '0' <= c <= '9'
  }

  /** The number a decimal text stands for. */
  function DecimalValue(text: string): nat
    requires forall c | c in text :: IsDigit(c)
  {
    if text == "" then 0
    else
      var last := text[|text| - 1];
      assert IsDigit(last);
      10 * DecimalValue(text[..|text| - 1]) + (last as int - '0' as int)
  }

  /** A number's text is its decimal form without leading zeros. */
  lemma {:induction false} DigitsAreDecimal(n: nat)
    ensures forall c | c in Digits(n) :: IsDigit(c)
    ensures DecimalValue(Digits(n)) == n
    ensures |Digits(n)| > 1 ==> Digits(n)[0] != '0'
  {
    if n < 10 {
      assert Digits(n)[..0] == "";
    } else {
      DigitsAreDecimal(n / 10);
      var init := Digits(n / 10);
      assert Digits(n)[..|Digits(n)| - 1] == init;
      if |init| == 1 {
        assert init[..0] == "";
        assert DecimalValue(init) == init[0] as int - '0' as int;
      }
    }
  }

  /** The consensus chain by its name, a domain by its number in parentheses. */
  ghost predicate NamesChain(text: string, chain: ChainId) {
    match chain
    case Consensus => text == "Consensus"
    case Domain(id) =>
      && |text| > 8 && text[..7] == "Domain(" && text[|text| - 1] == ')'
      && (forall c | c in text[7..|text| - 1] :: IsDigit(c))
      && DecimalValue(text[7..|text| - 1]) == id
      && (|text| > 9 ==> text[7] != '0')
  }

  lemma {:induction false} ChainTextNames(chain: ChainId)
    ensures NamesChain(ChainText(chain), chain)
  {
    if chain.Domain? {
      DigitsAreDecimal(chain.id);
      var text := ChainText(chain);
      assert text[7..|text| - 1] == Digits(chain.id);
    }
  }

  /** The row belongs to the transfer with this id from `src` to `dst`. */
  ghost predicate IdentifiesTransfer(key: Key, src: ChainId, dst: ChainId, id: MessageId) {
    && NamesChain(key.srcChain, src) && NamesChain(key.dstChain, dst)
    && key.channelId == id.channelId && key.nonce == id.nonce
  }

  /** An initiated transfer names both chains itself; the other events name the chain opposite to the storing one. */
  lemma {:induction false} KeysIdentifyTransfers(s: Stored)
    ensures match s.event
            case OutgoingTransferInitiated(id, transfer) =>
              IdentifiesTransfer(KeyOf(s), transfer.sender.chainId, transfer.receiver.chainId, id)
            case OutgoingTransferFailed(chainId, id) => IdentifiesTransfer(KeyOf(s), s.chain, chainId, id)
            case OutgoingTransferSuccessful(chainId, id) => IdentifiesTransfer(KeyOf(s), s.chain, chainId, id)
            case IncomingTransferSuccessful(chainId, id, _) => IdentifiesTransfer(KeyOf(s), chainId, s.chain, id)
  {
    ChainTextNames(s.chain);
    match s.event
    case OutgoingTransferInitiated(_, transfer) =>
      ChainTextNames(transfer.sender.chainId);
      ChainTextNames(transfer.receiver.chainId);
    case OutgoingTransferFailed(chainId, _) => ChainTextNames(chainId);
    case OutgoingTransferSuccessful(chainId, _) => ChainTextNames(chainId);
    case IncomingTransferSuccessful(chainId, _, _) => ChainTextNames(chainId);
  }

  // Columns

  ghost predicate Has(row: Fields, c: Column, value: Value) {
    c in row && row[c] == value
  }

  ghost predicate ShowsInitiated(row: Fields, s: Stored)
    requires s.event.OutgoingTransferInitiated?
  {
    && Has(row, Sender, Number(s.event.transfer.sender.account))
    && Has(row, Receiver, Number(s.event.transfer.receiver.account))
    && Has(row, Amount, Number(s.event.transfer.amount))
    && Has(row, InitiatedBlockNumber, Number(s.block.number))
    && Has(row, InitiatedBlockHash, Number(s.block.hash))
    && Has(row, InitiatedAt, Number(s.time))
  }

  ghost predicate ShowsExecuted(row: Fields, s: Stored)
    requires s.event.IncomingTransferSuccessful?
  {
    && Has(row, Amount, Number(s.event.amount))
    && Has(row, ExecutedBlockNumber, Number(s.block.number))
    && Has(row, ExecutedBlockHash, Number(s.block.hash))
    && Has(row, ExecutedAt, Number(s.time))
    && Has(row, TransferSuccessful, Flag(true))
  }

  ghost predicate ShowsAcknowledged(row: Fields, s: Stored, successful: bool) {
    && Has(row, AcknowledgedBlockNumber, Number(s.block.number))
    && Has(row, AcknowledgedBlockHash, Number(s.block.hash))
    && Has(row, AcknowledgedAt, Number(s.time))
    && Has(row, TransferSuccessful, Flag(successful))
  }

  /** The row shows the stored event in its own columns. */
  ghost predicate ShowsEvent(row: Fields, s: Stored) {
    match s.event
    case OutgoingTransferInitiated(_, _) => ShowsInitiated(row, s)
    case OutgoingTransferFailed(_, _) => ShowsAcknowledged(row, s, false)
    case OutgoingTransferSuccessful(_, _) => ShowsAcknowledged(row, s, true)
    case IncomingTransferSuccessful(_, _, _) => ShowsExecuted(row, s)
  }

  /** The columns an event of each kind leaves alone. */
  predicate Leaves(event: Event, c: Column) {
    match c
    case Sender => !event.OutgoingTransferInitiated?
    case Receiver => !event.OutgoingTransferInitiated?
    case Amount => event.OutgoingTransferFailed? || event.OutgoingTransferSuccessful?
    case InitiatedBlockNumber => !event.OutgoingTransferInitiated?
    case InitiatedBlockHash => !event.OutgoingTransferInitiated?
    case InitiatedAt => !event.OutgoingTransferInitiated?
    case ExecutedBlockNumber => !event.IncomingTransferSuccessful?
    case ExecutedBlockHash => !event.IncomingTransferSuccessful?
    case ExecutedAt => !event.IncomingTransferSuccessful?
    case AcknowledgedBlockNumber => event.OutgoingTransferInitiated? || event.IncomingTransferSuccessful?
    case AcknowledgedBlockHash => event.OutgoingTransferInitiated? || event.IncomingTransferSuccessful?
    case AcknowledgedAt => event.OutgoingTransferInitiated? || event.IncomingTransferSuccessful?
    case TransferSuccessful => event.OutgoingTransferInitiated?
  }

  lemma {:induction false} WritesShow(row: Fields, s: Stored)
    requires forall c | c in Writes(s) :: c in row && row[c] == Writes(s)[c]
    ensures ShowsEvent(row, s)
  {
    assert s.event.OutgoingTransferInitiated? ==>
      Sender in Writes(s) && Receiver in Writes(s) && Amount in Writes(s) && InitiatedBlockNumber in Writes(s)
      && InitiatedBlockHash in Writes(s) && InitiatedAt in Writes(s);
    assert s.event.IncomingTransferSuccessful? ==>
      Amount in Writes(s) && ExecutedBlockNumber in Writes(s) && ExecutedBlockHash in Writes(s)
      && ExecutedAt in Writes(s) && TransferSuccessful in Writes(s);
    assert s.event.OutgoingTransferFailed? || s.event.OutgoingTransferSuccessful? ==>
      AcknowledgedBlockNumber in Writes(s) && AcknowledgedBlockHash in Writes(s)
      && AcknowledgedAt in Writes(s) && TransferSuccessful in Writes(s);
  }

  lemma {:induction false} LeavesWhatItDoesNotWrite(s: Stored, c: Column)
    ensures Leaves(s.event, c) <==> c !in Writes(s)
  {
    match c
    case Sender => case Receiver => case Amount => case InitiatedBlockNumber => case InitiatedBlockHash =>
    case InitiatedAt => case ExecutedBlockNumber => case ExecutedBlockHash => case ExecutedAt =>
    case AcknowledgedBlockNumber => case AcknowledgedBlockHash => case AcknowledgedAt => case TransferSuccessful =>
  }

  /** Storing one event: its transfer's row shows it, keeps its other columns, and no other row changes. */
  lemma {:induction false} StoringShows(table: Table, s: Stored)
    ensures KeyOf(s) in Store(table, s) && ShowsEvent(Store(table, s)[KeyOf(s)], s)
    ensures forall c | Leaves(s.event, c) ::
              && (c in Store(table, s)[KeyOf(s)] <==> KeyOf(s) in table && c in table[KeyOf(s)])
              && (c in Store(table, s)[KeyOf(s)] ==> Store(table, s)[KeyOf(s)][c] == table[KeyOf(s)][c])
    ensures forall key | key != KeyOf(s) ::
              && (key in Store(table, s) <==> key in table)
              && (key in table ==> Store(table, s)[key] == table[key])
  {
    WritesShow(Store(table, s)[KeyOf(s)], s);
    forall c | Leaves(s.event, c)
      ensures c !in Writes(s)
    {
      LeavesWhatItDoesNotWrite(s, c);
    }
  }

  // The merged row

  /** The events of one transfer agree with one another. */
  ghost predicate TransfersConsistent(events: seq<Stored>) {
    forall a, b | a in events && b in events && KeyOf(a) == KeyOf(b) :: Consistent(a, b)
  }

  lemma {:induction false} ConsistentIsConflictFree(events: seq<Stored>)
    ensures TransfersConsistent(events) <==> ConflictFree(events)
  {
    forall a, b | a in events && b in events
      ensures Compatible(a, b) <==> (KeyOf(a) == KeyOf(b) ==> Consistent(a, b))
    {
      CompatibleIffConsistent(a, b);
    }
  }

  /** Every stored event is shown in its transfer's row, whatever else was stored and in whatever order. */
  lemma {:induction false} EveryEventIsShown(events: seq<Stored>, s: Stored)
    requires TransfersConsistent(events) && s in events
    ensures KeyOf(s) in StoreAll(map[], events)
    ensures ShowsEvent(StoreAll(map[], events)[KeyOf(s)], s)
  {
    ConsistentIsConflictFree(events);
    StoredShows(events);
    WritesShow(StoreAll(map[], events)[KeyOf(s)], s);
  }

  /**
   A transfer that ended well. Its row has the accounts and the amount as initiated, in each phase's columns
   the number, hash and time of the block that stored that phase, and counts as successful.
   */
  lemma {:induction false} SuccessfulTransferRow(
    src: ChainId, dst: ChainId, id: MessageId, initiated: Stored, executed: Stored, acknowledged: Stored,
    events: seq<Stored>)
    requires Phases(src, dst, id, initiated, executed, acknowledged) && TransfersConsistent(events)
    requires initiated in events && executed in events && acknowledged in events
    ensures IdentifiesTransfer(KeyOf(initiated), src, dst, id) && KeyOf(initiated) in StoreAll(map[], events)
    ensures var row := StoreAll(map[], events)[KeyOf(initiated)];
            ShowsInitiated(row, initiated) && ShowsExecuted(row, executed) && ShowsAcknowledged(row, acknowledged, true)
  {
    KeysIdentifyTransfers(initiated);
    SharedRow(src, dst, id, initiated, executed, acknowledged);
    EveryEventIsShown(events, initiated);
    EveryEventIsShown(events, executed);
    EveryEventIsShown(events, acknowledged);
  }

  /**
   A transfer that failed. Its row has what was initiated, the number, hash and time of the block that
   stored the failure as acknowledged, and counts as unsuccessful.
   */
  lemma {:induction false} FailedTransferRow(
    src: ChainId, dst: ChainId, id: MessageId, initiated: Stored, failed: Stored, events: seq<Stored>)
    requires initiated.event.OutgoingTransferInitiated? && initiated.event.messageId == id
    requires initiated.event.transfer.sender.chainId == src && initiated.event.transfer.receiver.chainId == dst
    requires failed.chain == src && failed.event == OutgoingTransferFailed(dst, id)
    requires initiated in events && failed in events && TransfersConsistent(events)
    ensures IdentifiesTransfer(KeyOf(initiated), src, dst, id) && KeyOf(initiated) in StoreAll(map[], events)
    ensures var row := StoreAll(map[], events)[KeyOf(initiated)];
            && ShowsInitiated(row, initiated) && ShowsAcknowledged(row, failed, false)
            && ExecutedBlockNumber !in row && ExecutedBlockHash !in row && ExecutedAt !in row
  {
    KeysIdentifyTransfers(initiated);
    EveryEventIsShown(events, initiated);
    EveryEventIsShown(events, failed);
    NeverExecuted(events, failed, ExecutedBlockNumber);
    NeverExecuted(events, failed, ExecutedBlockHash);
    NeverExecuted(events, failed, ExecutedAt);
  }

  /** A column is only there if some event that does not leave it alone was stored. */
  lemma {:induction false} ColumnHasWriter(events: seq<Stored>, key: Key, c: Column)
    requires key in StoreAll(map[], events) && c in StoreAll(map[], events)[key]
    ensures exists s | s in events :: KeyOf(s) == key && !Leaves(s.event, c)
  {
    StoredOnlyFrom(events);
    var s :| s in events && KeyOf(s) == key && c in Writes(s);
    LeavesWhatItDoesNotWrite(s, c);
  }

  lemma {:induction false} ColumnHasIncoming(events: seq<Stored>, key: Key, c: Column)
    requires c in [ExecutedBlockNumber, ExecutedBlockHash, ExecutedAt]
    requires key in StoreAll(map[], events) && c in StoreAll(map[], events)[key]
    ensures exists s | s in events :: KeyOf(s) == key && s.event.IncomingTransferSuccessful?
  {
    ColumnHasWriter(events, key, c);
    var s :| s in events && KeyOf(s) == key && !Leaves(s.event, c);
    assert s.event.IncomingTransferSuccessful?;
  }

  lemma FailedHasNoIncoming(events: seq<Stored>, failed: Stored)
    requires failed in events && failed.event.OutgoingTransferFailed? && TransfersConsistent(events)
    ensures forall s | s in events && KeyOf(s) == KeyOf(failed) :: !s.event.IncomingTransferSuccessful?
  {
  }

  /** Consistent events do not show a failed transfer as executed. */
  lemma {:induction false} NeverExecuted(events: seq<Stored>, failed: Stored, c: Column)
    requires failed in events && failed.event.OutgoingTransferFailed? && TransfersConsistent(events)
    requires c in [ExecutedBlockNumber, ExecutedBlockHash, ExecutedAt]
    requires KeyOf(failed) in StoreAll(map[], events)
    ensures c !in StoreAll(map[], events)[KeyOf(failed)]
  {
    FailedHasNoIncoming(events, failed);
    if c in StoreAll(map[], events)[KeyOf(failed)] {
      ColumnHasIncoming(events, KeyOf(failed), c);
    }
  }
}
