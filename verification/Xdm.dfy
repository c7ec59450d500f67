/**
 Cross-domain transfers: three kinds of event, seen by the processors of two chains, each write
 their own columns of one row per transfer.

 A row maps its non-null columns to values; accounts, hashes and times are plain numbers here.
 */
module Xdm {
  import opened Chain

  datatype ChainId = Consensus | Domain(id: nat)

  datatype MessageId = MessageId(channelId: nat, nonce: nat)

  datatype Location = Location(chainId: ChainId, account: nat)

  datatype Transfer = Transfer(amount: nat, sender: Location, receiver: Location)

  datatype Event =
    | OutgoingTransferInitiated(messageId: MessageId, transfer: Transfer)
    | OutgoingTransferFailed(chainId: ChainId, messageId: MessageId)
    | OutgoingTransferSuccessful(chainId: ChainId, messageId: MessageId)
    | IncomingTransferSuccessful(chainId: ChainId, messageId: MessageId, amount: nat)

  /** An event as one chain's processor stores it. */
  datatype Stored = Stored(chain: ChainId, block: HashAndNumber, time: nat, event: Event)

  // Row keys

  function Digits(n: nat): (text: string)
    ensures |text| > 0
  {
    if n < 10 then [('0' as int + n) as char] else Digits(n / 10) + [('0' as int + n % 10) as char]
  }

  function ChainText(chain: ChainId): string {
    match chain
    case Consensus => "Consensus"
    case Domain(id) => "Domain(" + Digits(id) + ")"
  }

  datatype Key = Key(srcChain: string, dstChain: string, channelId: nat, nonce: nat)

  function KeyFor(src: ChainId, dst: ChainId, id: MessageId): Key {
    Key(ChainText(src), ChainText(dst), id.channelId, id.nonce)
  }

  lemma {:induction false} DigitsInjective(m: nat, n: nat)
    requires Digits(m) == Digits(n)
    ensures m == n
  {
    if m < 10 && n < 10 {
      assert Digits(m)[0] == Digits(n)[0];
    } else if m >= 10 && n >= 10 {
      var a, b := Digits(m), Digits(n);
      assert a[|a| - 1] == b[|b| - 1];
      assert a[..|a| - 1] == Digits(m / 10) && b[..|b| - 1] == Digits(n / 10);
      DigitsInjective(m / 10, n / 10);
    }
  }

  lemma {:induction false} ChainTextInjective(a: ChainId, b: ChainId)
    requires ChainText(a) == ChainText(b)
    ensures a == b
  {
    assert forall chain :: ChainText(chain)[0] == if chain.Consensus? then 'C' else 'D';
    if a.Domain? && b.Domain? {
      assert ChainText(a)[7..|ChainText(a)| - 1] == Digits(a.id);
      assert ChainText(b)[7..|ChainText(b)| - 1] == Digits(b.id);
      DigitsInjective(a.id, b.id);
    }
  }

  /** Distinct transfers never share a row. */
  lemma {:induction false} KeysAreInjective(
    src: ChainId, dst: ChainId, id: MessageId, src': ChainId, dst': ChainId, id': MessageId)
    ensures KeyFor(src, dst, id) == KeyFor(src', dst', id') <==> src == src' && dst == dst' && id == id'
  {
    if KeyFor(src, dst, id) == KeyFor(src', dst', id') {
      ChainTextInjective(src, src');
      ChainTextInjective(dst, dst');
    }
  }

  // The three statements

  datatype Column =
    | Sender | Receiver | Amount
    | InitiatedBlockNumber | InitiatedBlockHash | InitiatedAt
    | ExecutedBlockNumber | ExecutedBlockHash | ExecutedAt
    | AcknowledgedBlockNumber | AcknowledgedBlockHash | AcknowledgedAt
    | TransferSuccessful

  datatype Value = Number(n: nat) | Flag(b: bool)

  type Fields = map<Column, Value>

  type Table = map<Key, Fields>

  function KeyOf(s: Stored): Key {
    match s.event
    case OutgoingTransferInitiated(id, transfer) => KeyFor(transfer.sender.chainId, transfer.receiver.chainId, id)
    case OutgoingTransferFailed(chainId, id) => KeyFor(s.chain, chainId, id)
    case OutgoingTransferSuccessful(chainId, id) => KeyFor(s.chain, chainId, id)
    case IncomingTransferSuccessful(chainId, id, _) => KeyFor(chainId, s.chain, id)
  }

  function Acknowledgement(s: Stored, successful: bool): Fields {
    map[AcknowledgedBlockNumber := Number(s.block.number), AcknowledgedBlockHash := Number(s.block.hash),
        AcknowledgedAt := Number(s.time), TransferSuccessful := Flag(successful)]
  }

  /** The columns an event's upsert sets; the others keep what they have. */
  function Writes(s: Stored): Fields {
    match s.event
    case OutgoingTransferInitiated(_, transfer) =>
      map[Sender := Number(transfer.sender.account), Receiver := Number(transfer.receiver.account),
          Amount := Number(transfer.amount),
          InitiatedBlockNumber := Number(s.block.number), InitiatedBlockHash := Number(s.block.hash),
          InitiatedAt := Number(s.time)]
    case OutgoingTransferFailed(_, _) => Acknowledgement(s, false)
    case OutgoingTransferSuccessful(_, _) => Acknowledgement(s, true)
    case IncomingTransferSuccessful(_, _, amount) =>
      map[Amount := Number(amount),
          ExecutedBlockNumber := Number(s.block.number), ExecutedBlockHash := Number(s.block.hash),
          ExecutedAt := Number(s.time), TransferSuccessful := Flag(true)]
  }

  function RowOr(table: Table, key: Key): Fields {
    if key in table then table[key] else map[]
  }

  function Store(table: Table, s: Stored): Table {
    table[KeyOf(s) := RowOr(table, KeyOf(s)) + Writes(s)]
  }

  function StoreAll(table: Table, events: seq<Stored>): Table {
    if events == [] then table else Store(StoreAll(table, events[..|events| - 1]), events[|events| - 1])
  }

  lemma {:induction false} StoreAllAppend(table: Table, a: seq<Stored>, b: seq<Stored>)
    ensures StoreAll(table, a + b) == StoreAll(StoreAll(table, a), b)
    decreases |b|
  {
    if b == [] {
      assert a + b == a;
    } else {
      StoreAllAppend(table, a, b[..|b| - 1]);
      assert (a + b)[..|a + b| - 1] == a + b[..|b| - 1];
    }
  }

  // Confluence

  /** The two events never set one column of one row to different values. */
  predicate Compatible(a: Stored, b: Stored) {
    KeyOf(a) == KeyOf(b) ==> forall c | c in Writes(a) && c in Writes(b) :: Writes(a)[c] == Writes(b)[c]
  }

  ghost predicate ConflictFree(events: seq<Stored>) {
    forall a, b | a in events && b in events :: Compatible(a, b)
  }

  ghost predicate SameEvents(a: seq<Stored>, b: seq<Stored>) {
    forall s :: s in a <==> s in b
  }

  /** Every row and every column of the table was written by one of the events. */
  ghost predicate OnlyFrom(table: Table, events: seq<Stored>) {
    && (forall key | key in table :: exists s | s in events :: KeyOf(s) == key)
    && (forall key, c | key in table && c in table[key] :: exists s | s in events :: KeyOf(s) == key && c in Writes(s))
  }

  /** The table shows all that the events write. */
  ghost predicate Shows(table: Table, events: seq<Stored>) {
    forall s | s in events :: KeyOf(s) in table && forall c | c in Writes(s) ::
      c in table[KeyOf(s)] && table[KeyOf(s)][c] == Writes(s)[c]
  }

  lemma {:induction false} StoredOnlyFrom(events: seq<Stored>)
    ensures OnlyFrom(StoreAll(map[], events), events)
  {
    if events != [] {
      var init, last := events[..|events| - 1], events[|events| - 1];
      StoredOnlyFrom(init);
      assert events == init + [last];
      var before, after := StoreAll(map[], init), StoreAll(map[], events);
      forall key | key in after
        ensures exists s | s in events :: KeyOf(s) == key
      {
        if key in before {
          var s :| s in init && KeyOf(s) == key;
          assert s in events;
        } else {
          assert last in events;
        }
      }
      forall key, c | key in after && c in after[key]
        ensures exists s | s in events :: KeyOf(s) == key && c in Writes(s)
      {
        if key in before && c in before[key] {
          var s :| s in init && KeyOf(s) == key && c in Writes(s);
          assert s in events;
        } else {
          assert last in events;
        }
      }
    }
  }

  lemma {:induction false} StoredShows(events: seq<Stored>)
    requires ConflictFree(events)
    ensures Shows(StoreAll(map[], events), events)
  {
    if events != [] {
      var init, last := events[..|events| - 1], events[|events| - 1];
      assert events == init + [last];
      StoredShows(init);
      forall s | s in events
        ensures KeyOf(s) in StoreAll(map[], events)
        ensures forall c | c in Writes(s) ::
                  && c in StoreAll(map[], events)[KeyOf(s)]
                  && StoreAll(map[], events)[KeyOf(s)][c] == Writes(s)[c]
      {
        assert last in events && Compatible(s, last);
        assert s != last ==> s in init;
      }
    }
  }

  lemma {:induction false} MergeIsUnique(x: Table, y: Table, a: seq<Stored>, b: seq<Stored>)
    requires OnlyFrom(x, a) && Shows(x, a) && OnlyFrom(y, b) && Shows(y, b) && SameEvents(a, b)
    ensures x == y
  {
    RowsIncluded(x, y, a, b);
    RowsIncluded(y, x, b, a);
    forall key | key in x
      ensures x[key] == y[key]
    {
      assert x[key].Keys == y[key].Keys;
    }
  }

  lemma {:induction false} RowsIncluded(x: Table, y: Table, a: seq<Stored>, b: seq<Stored>)
    requires OnlyFrom(x, a) && Shows(x, a) && Shows(y, b) && SameEvents(a, b)
    ensures forall key | key in x :: key in y && forall c | c in x[key] :: c in y[key] && x[key][c] == y[key][c]
  {
    forall key | key in x
      ensures key in y && forall c | c in x[key] :: c in y[key] && x[key][c] == y[key][c]
    {
      var r :| r in a && KeyOf(r) == key;
      assert r in b;
      forall c | c in x[key]
        ensures c in y[key] && x[key][c] == y[key][c]
      {
        var s :| s in a && KeyOf(s) == key && c in Writes(s);
        assert s in b;
      }
    }
  }

  /**
   Confluence: two orders of the same conflict-free events, with any repetitions and from any of the
   processors, give the same table.
   */
  lemma {:induction false} SameEventsSameTable(a: seq<Stored>, b: seq<Stored>)
    requires ConflictFree(a) && SameEvents(a, b)
    ensures StoreAll(map[], a) == StoreAll(map[], b)
  {
    StoredOnlyFrom(a);
    StoredOnlyFrom(b);
    StoredShows(a);
    StoredShows(b);
    MergeIsUnique(StoreAll(map[], a), StoreAll(map[], b), a, b);
  }

  /** Storing any of a conflict-free log's events again, in any order, changes nothing. */
  lemma {:induction false} ReplayChangesNothing(log: seq<Stored>, again: seq<Stored>)
    requires ConflictFree(log) && (forall s | s in again :: s in log)
    ensures StoreAll(StoreAll(map[], log), again) == StoreAll(map[], log)
  {
    StoreAllAppend(map[], log, again);
    SameEventsSameTable(log, log + again);
  }

  /** All ways of storing these events, each at least once, lead to one table. */
  ghost predicate OrderIrrelevant(events: seq<Stored>) {
    forall a, b | SameEvents(a, events) && SameEvents(b, events) :: StoreAll(map[], a) == StoreAll(map[], b)
  }

  lemma {:induction false} LastWriterWins(table: Table, events: seq<Stored>, s: Stored, c: Column)
    requires c in Writes(s)
    ensures KeyOf(s) in StoreAll(table, events + [s]) && c in StoreAll(table, events + [s])[KeyOf(s)]
    ensures StoreAll(table, events + [s])[KeyOf(s)][c] == Writes(s)[c]
  {
    assert (events + [s])[..|events|] == events;
  }

  lemma Repeating(events: seq<Stored>, a: Stored, b: Stored)
    requires a in events && b in events
    ensures SameEvents(events + [a] + [b], events)
  {
  }

  lemma {:induction false} ConflictMattersInOrder(events: seq<Stored>, a: Stored, b: Stored, c: Column)
    requires a in events && b in events && KeyOf(a) == KeyOf(b)
    requires c in Writes(a) && c in Writes(b) && Writes(a)[c] != Writes(b)[c]
    ensures !OrderIrrelevant(events)
  {
    var aLast, bLast := events + [b] + [a], events + [a] + [b];
    Repeating(events, a, b);
    Repeating(events, b, a);
    LastWriterWins(map[], events + [b], a, c);
    LastWriterWins(map[], events + [a], b, c);
    OrderMatters(events, aLast, bLast, KeyOf(a), c);
  }

  lemma OrderMatters(events: seq<Stored>, a: seq<Stored>, b: seq<Stored>, key: Key, c: Column)
    requires SameEvents(a, events) && SameEvents(b, events)
    requires key in StoreAll(map[], a) && key in StoreAll(map[], b)
    requires c in StoreAll(map[], a)[key] && c in StoreAll(map[], b)[key]
    requires StoreAll(map[], a)[key][c] != StoreAll(map[], b)[key][c]
    ensures !OrderIrrelevant(events)
  {
  }

  /** The order is irrelevant exactly when the events are conflict-free. */
  lemma {:induction false} OrderIrrelevantIffConflictFree(events: seq<Stored>)
    ensures OrderIrrelevant(events) <==> ConflictFree(events)
  {
    if ConflictFree(events) {
      forall a, b | SameEvents(a, events) && SameEvents(b, events)
        ensures StoreAll(map[], a) == StoreAll(map[], b)
      {
        SameEventsSameTable(events, a);
        SameEventsSameTable(events, b);
      }
    } else {
      var a, b :| a in events && b in events && !Compatible(a, b);
      var c :| c in Writes(a) && c in Writes(b) && Writes(a)[c] != Writes(b)[c];
      ConflictMattersInOrder(events, a, b, c);
    }
  }

  /** What two events of one transfer have to agree on. */
  predicate Consistent(a: Stored, b: Stored) {
    match (a.event, b.event)
    case (OutgoingTransferInitiated(_, t), OutgoingTransferInitiated(_, u)) =>
      && t.sender.account == u.sender.account && t.receiver.account == u.receiver.account
      && t.amount == u.amount && a.block == b.block && a.time == b.time
    case (OutgoingTransferInitiated(_, t), IncomingTransferSuccessful(_, _, amount)) => t.amount == amount
    case (IncomingTransferSuccessful(_, _, amount), OutgoingTransferInitiated(_, t)) => t.amount == amount
    case (IncomingTransferSuccessful(_, _, m), IncomingTransferSuccessful(_, _, n)) =>
      m == n && a.block == b.block && a.time == b.time
    case (IncomingTransferSuccessful(_, _, _), OutgoingTransferFailed(_, _)) => false
    case (OutgoingTransferFailed(_, _), IncomingTransferSuccessful(_, _, _)) => false
    case (OutgoingTransferFailed(_, _), OutgoingTransferSuccessful(_, _)) => false
    case (OutgoingTransferSuccessful(_, _), OutgoingTransferFailed(_, _)) => false
    case (OutgoingTransferFailed(_, _), OutgoingTransferFailed(_, _)) => a.block == b.block && a.time == b.time
    case (OutgoingTransferSuccessful(_, _), OutgoingTransferSuccessful(_, _)) => a.block == b.block && a.time == b.time
    case _ => true
  }

  /** The columns the two events share, with equal values. */
  predicate AgreeAt(a: Stored, b: Stored, c: Column) {
    c in Writes(a) && c in Writes(b) ==> Writes(a)[c] == Writes(b)[c]
  }

  lemma {:induction false} InitiatedConsistency(a: Stored, b: Stored)
    requires a.event.OutgoingTransferInitiated?
    ensures (forall c :: AgreeAt(a, b, c)) <==> Consistent(a, b)
  {
    if forall c :: AgreeAt(a, b, c) {
      assert AgreeAt(a, b, Sender) && AgreeAt(a, b, Receiver) && AgreeAt(a, b, Amount);
      assert AgreeAt(a, b, InitiatedBlockNumber) && AgreeAt(a, b, InitiatedBlockHash) && AgreeAt(a, b, InitiatedAt);
    }
  }

  lemma {:induction false} ExecutedConsistency(a: Stored, b: Stored)
    requires a.event.IncomingTransferSuccessful?
    ensures (forall c :: AgreeAt(a, b, c)) <==> Consistent(a, b)
  {
    if forall c :: AgreeAt(a, b, c) {
      assert AgreeAt(a, b, Amount) && AgreeAt(a, b, TransferSuccessful);
      assert AgreeAt(a, b, ExecutedBlockNumber) && AgreeAt(a, b, ExecutedBlockHash) && AgreeAt(a, b, ExecutedAt);
    }
  }

  lemma {:induction false} AcknowledgedConsistency(a: Stored, b: Stored)
    requires a.event.OutgoingTransferFailed? || a.event.OutgoingTransferSuccessful?
    ensures (forall c :: AgreeAt(a, b, c)) <==> Consistent(a, b)
  {
    if forall c :: AgreeAt(a, b, c) {
      assert AgreeAt(a, b, TransferSuccessful);
      assert AgreeAt(a, b, AcknowledgedBlockNumber) && AgreeAt(a, b, AcknowledgedBlockHash);
      assert AgreeAt(a, b, AcknowledgedAt);
    }
  }

  /**
   Events of one transfer are compatible exactly when: there is one version of each phase, the
   initiated and executed amounts are equal, and it did not both fail and succeed.
   */
  lemma {:induction false} CompatibleIffConsistent(a: Stored, b: Stored)
    ensures Compatible(a, b) <==> (KeyOf(a) == KeyOf(b) ==> Consistent(a, b))
  {
    match a.event {
      case OutgoingTransferInitiated(_, _) => InitiatedConsistency(a, b);
      case IncomingTransferSuccessful(_, _, _) => ExecutedConsistency(a, b);
      case _ => AcknowledgedConsistency(a, b);
    }
    assert (forall c :: AgreeAt(a, b, c))
      <==> (forall c | c in Writes(a) && c in Writes(b) :: Writes(a)[c] == Writes(b)[c]);
  }

  // The whole row

  /** The events of one transfer from `src` to `dst` that ended well, as the two chains' processors store them. */
  predicate Phases(
    src: ChainId, dst: ChainId, id: MessageId, initiated: Stored, executed: Stored, acknowledged: Stored)
  {
    && initiated.event.OutgoingTransferInitiated? && initiated.event.messageId == id
    && initiated.event.transfer.sender.chainId == src && initiated.event.transfer.receiver.chainId == dst
    && executed.chain == dst && executed.event.IncomingTransferSuccessful?
    && executed.event.chainId == src && executed.event.messageId == id
    && acknowledged.chain == src && acknowledged.event == OutgoingTransferSuccessful(dst, id)
  }

  lemma {:induction false} PhasesCoverAllColumns(
    src: ChainId, dst: ChainId, id: MessageId, initiated: Stored, executed: Stored, acknowledged: Stored, c: Column)
    requires Phases(src, dst, id, initiated, executed, acknowledged)
    ensures c in Writes(initiated) || c in Writes(executed) || c in Writes(acknowledged)
  {
    match c
    case Sender => case Receiver => case Amount => case InitiatedBlockNumber => case InitiatedBlockHash =>
    case InitiatedAt => case ExecutedBlockNumber => case ExecutedBlockHash => case ExecutedAt =>
    case AcknowledgedBlockNumber => case AcknowledgedBlockHash => case AcknowledgedAt => case TransferSuccessful =>
  }

  /** The row shows these columns. */
  predicate Includes(row: Fields, fields: Fields) {
    forall c | c in fields :: c in row && row[c] == fields[c]
  }

  lemma CoveredRowIsMerge(row: Fields, x: Fields, y: Fields, z: Fields)
    requires Includes(row, x) && Includes(row, y) && Includes(row, z)
    requires forall c: Column :: c in x || c in y || c in z
    ensures row == x + y + z
  {
  }

  /**
   The three partial writers meet in one row: once all three phases are stored, in any order and among
   any other events that fit them, the transfer's row has every column, each from its own phase.
   */
  lemma {:induction false} PhasesMeetInOneRow(
    src: ChainId, dst: ChainId, id: MessageId, initiated: Stored, executed: Stored, acknowledged: Stored,
    events: seq<Stored>)
    requires Phases(src, dst, id, initiated, executed, acknowledged)
    requires initiated in events && executed in events && acknowledged in events && ConflictFree(events)
    ensures KeyFor(src, dst, id) in StoreAll(map[], events)
    ensures StoreAll(map[], events)[KeyFor(src, dst, id)]
            == Writes(initiated) + Writes(executed) + Writes(acknowledged)
    ensures forall c: Column :: c in StoreAll(map[], events)[KeyFor(src, dst, id)]
  {
    StoredShows(events);
    forall c: Column
      ensures c in Writes(initiated) || c in Writes(executed) || c in Writes(acknowledged)
    {
      PhasesCoverAllColumns(src, dst, id, initiated, executed, acknowledged, c);
    }
    SharedRow(src, dst, id, initiated, executed, acknowledged);
    var row := StoreAll(map[], events)[KeyFor(src, dst, id)];
    CoveredRowIsMerge(row, Writes(initiated), Writes(executed), Writes(acknowledged));
  }

  lemma SharedRow(
    src: ChainId, dst: ChainId, id: MessageId, initiated: Stored, executed: Stored, acknowledged: Stored)
    requires Phases(src, dst, id, initiated, executed, acknowledged)
    ensures KeyOf(initiated) == KeyOf(executed) == KeyOf(acknowledged) == KeyFor(src, dst, id)
  {
  }
}
