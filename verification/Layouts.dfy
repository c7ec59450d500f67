/** The decoders, said of raw bytes: which bytes of the stored value each field of the result is read from. */
module Layouts {
  import opened OnChain
  import opened RpcTypes
  import opened Scale
  import opened StakingSummaries
  import opened Withdrawals
  import T = Tables

  // Numbers

  /** The value of bytes, least significant first. */
  ghost predicate IsLittleEndian(n: nat, bytes: Bytes) {
    if bytes == [] then n == 0 else n % 256 == bytes[0] && IsLittleEndian(n / 256, bytes[1..])
  }

  /** Fixed-width integers are little-endian. */
  lemma {:induction false} ReadsLittleEndian(bytes: Bytes)
    ensures IsLittleEndian(FromLittleEndian(bytes), bytes)
  {
    if bytes != [] {
      ReadsLittleEndian(bytes[1..]);
      LowByte(bytes[0], FromLittleEndian(bytes[1..]));
    }
  }

  /** Only one number has these bytes. */
  lemma {:induction false} LittleEndianIsUnique(m: nat, n: nat, bytes: Bytes)
    requires IsLittleEndian(m, bytes) && IsLittleEndian(n, bytes)
    ensures m == n
  {
    if bytes != [] {
      LittleEndianIsUnique(m / 256, n / 256, bytes[1..]);
    }
  }

  /** The value of four bytes, the first of least weight. */
  function Word(a: nat, b: nat, c: nat, d: nat): nat {
    a + 256 * b + 65536 * c + 16777216 * d
  }

  lemma {:induction false} TwoBytes(s: Bytes)
    requires |s| >= 2
    ensures At(s, 0, 2) == Word(s[0], s[1], 0, 0)
  {
    AtSplit(s, 2);
    OneByte(s[1..]);
  }

  lemma {:induction false} OneByte(s: Bytes)
    requires |s| >= 1
    ensures At(s, 0, 1) == s[0]
  {
    assert s[0..1][1..] == [];
  }

  lemma {:induction false} FourBytes(s: Bytes)
    requires |s| >= 4
    ensures At(s, 0, 4) == Word(s[0], s[1], s[2], s[3])
  {
    AtSplit(s, 4);
    AtSplit(s[1..], 3);
    TwoBytes(s[1..][1..]);
  }

  /** A compact length of one byte. */
  lemma {:induction false} CompactOne(s: Bytes)
    requires s != [] && s[0] % 4 == 0
    ensures ParseCompact(s) == Parsed(s[0] / 4, s[1..])
  {
  }

  /** Of two bytes, for the lengths above 63 only. */
  lemma {:induction false} CompactTwo(s: Bytes)
    requires s != [] && s[0] % 4 == 1
    ensures ParseCompact(s)
            == if |s| < 2 then Invalid(NotEnoughData)
               else
                 var n := Word(s[0], s[1], 0, 0) / 4;
                 if n > 63 then Parsed(n, s[2..]) else Invalid(OutOfRange)
  {
    if |s| >= 2 {
      TwoBytes(s);
    }
  }

  /** Of four bytes, for the lengths above 16383 only. */
  lemma {:induction false} CompactFour(s: Bytes)
    requires s != [] && s[0] % 4 == 2
    ensures ParseCompact(s)
            == if |s| < 4 then Invalid(NotEnoughData)
               else
                 var n := Word(s[0], s[1], s[2], s[3]) / 4;
                 if n > 16383 then Parsed(n, s[4..]) else Invalid(OutOfRange)
  {
    if |s| >= 4 {
      FourBytes(s);
    }
  }

  /** A first byte of 3 and four more, for the lengths above 1073741823 only; longer forms exceed 32 bits. */
  lemma {:induction false} CompactFive(s: Bytes)
    requires s != [] && s[0] % 4 == 3
    ensures ParseCompact(s)
            == if s[0] != 3 then Invalid(OutOfRange)
               else if |s| < 5 then Invalid(NotEnoughData)
               else
                 var n := Word(s[1], s[2], s[3], s[4]);
                 if n > 1073741823 then Parsed(n, s[5..]) else Invalid(OutOfRange)
  {
    if |s| >= 5 {
      FourBytes(s[1..]);
      AtTail(s, 1, 0, 4);
    }
  }

  // Statuses

  /** The first byte tells the status; the bytes of its own fields are skipped. */
  lemma {:induction false} StatusLayout(s: Bytes)
    requires s != []
    ensures s[0] == 0 ==> ParseStatus(s) == Parsed(T.Registered, s[1..])
    ensures s[0] == 1 && |s| >= 13 ==> ParseStatus(s) == Parsed(T.Deregistered, s[13..])
    ensures s[0] == 2 ==> ParseStatus(s) == Parsed(T.Slashed, s[1..])
    ensures s[0] == 3 ==> ParseStatus(s) == Parsed(T.PendingSlash, s[1..])
    ensures s[0] == 4 && |s| >= 33 ==> ParseStatus(s) == Parsed(T.InvalidBundle, s[33..])
    ensures s[0] == 5 && |s| >= 5 ==> ParseStatus(s) == Parsed(T.Deactivated, s[5..])
    ensures s[0] > 5 ==> ParseStatus(s) == Invalid(UnknownVariant(s[0]))
    ensures (s[0] == 1 && |s| < 13) || (s[0] == 4 && |s| < 33) || (s[0] == 5 && |s| < 5) ==>
              ParseStatus(s) == Invalid(NotEnoughData)
  {
  }

  // Operators

  /** A stored operator's bytes, field after field in the order of the storage layout. */
  datatype OperatorBytes = OperatorBytes(
    signingKey: Bytes, currentDomainId: Bytes, nextDomainId: Bytes, minimumNominatorStake: Bytes,
    nominationTax: Bytes, currentTotalStake: Bytes, currentTotalShares: Bytes, status: Bytes,
    depositsInEpoch: Bytes, withdrawalsInEpoch: Bytes, totalStorageFeeDeposit: Bytes)
  {
    predicate Sized() {
      && |signingKey| == 32 && |currentDomainId| == 4 && |nextDomainId| == 4 && |minimumNominatorStake| == 16
      && |nominationTax| == 1 && |currentTotalStake| == 16 && |currentTotalShares| == 16
      && |depositsInEpoch| == 16 && |withdrawalsInEpoch| == 16 && |totalStorageFeeDeposit| == 16
    }

    function Head(): Bytes {
      signingKey + currentDomainId + nextDomainId + minimumNominatorStake + nominationTax + currentTotalStake
      + currentTotalShares
    }

    function Tail(): Bytes {
      depositsInEpoch + withdrawalsInEpoch + totalStorageFeeDeposit
    }
  }

  lemma {:induction false} HeadFields(o: OperatorBytes, rest: Bytes)
    requires o.Sized()
    ensures var s := o.Head() + rest;
            && |o.Head()| == 89 && s[89..] == rest && s[..32] == o.signingKey
            && At(s, 32, 4) == FromLittleEndian(o.currentDomainId)
            && At(s, 40, 16) == FromLittleEndian(o.minimumNominatorStake)
            && At(s, 56, 1) == FromLittleEndian(o.nominationTax)
            && At(s, 57, 16) == FromLittleEndian(o.currentTotalStake)
            && At(s, 73, 16) == FromLittleEndian(o.currentTotalShares)
  {
    var s := o.Head() + rest;
    assert s[32..36] == o.currentDomainId;
    assert s[40..56] == o.minimumNominatorStake;
    assert s[56..57] == o.nominationTax;
    assert s[57..73] == o.currentTotalStake;
    assert s[73..89] == o.currentTotalShares;
  }

  lemma {:induction false} TailFields(o: OperatorBytes, rest: Bytes)
    requires o.Sized()
    ensures var s := o.Tail() + rest;
            |o.Tail()| == 48 && s[48..] == rest && At(s, 32, 16) == FromLittleEndian(o.totalStorageFeeDeposit)
  {
    var s := o.Tail() + rest;
    assert s[32..48] == o.totalStorageFeeDeposit;
  }

  /** Each kept field of an operator is the number in that field's own bytes. */
  lemma {:induction false} OperatorLayout(o: OperatorBytes, status: T.OperatorStatus, rest: Bytes)
    requires o.Sized() && ParseStatus(o.status + (o.Tail() + rest)) == Parsed(status, o.Tail() + rest)
    ensures ParseOperator(o.Head() + (o.status + (o.Tail() + rest)))
            == Parsed(
                 FullOperator(
                   o.signingKey, FromLittleEndian(o.currentDomainId), FromLittleEndian(o.minimumNominatorStake),
                   FromLittleEndian(o.nominationTax), FromLittleEndian(o.currentTotalStake),
                   FromLittleEndian(o.currentTotalShares), status, FromLittleEndian(o.totalStorageFeeDeposit)),
                 rest)
  {
    HeadFields(o, o.status + (o.Tail() + rest));
    TailFields(o, rest);
  }

  // Withdrawals

  /** The bytes of one entry of the queue. */
  datatype EntryBytes = EntryBytes(unlockAtBlock: Bytes, amountToUnlock: Bytes, storageFeeRefund: Bytes) {
    predicate Sized() { |unlockAtBlock| == 4 && |amountToUnlock| == 16 && |storageFeeRefund| == 16 }

    function Flat(): Bytes { unlockAtBlock + amountToUnlock + storageFeeRefund }
  }

  function FlatEntries(entries: seq<EntryBytes>): Bytes {
    if entries == [] then [] else FlatEntries(entries[..|entries| - 1]) + entries[|entries| - 1].Flat()
  }

  ghost predicate AllSized(entries: seq<EntryBytes>) {
    forall e | e in entries :: e.Sized()
  }

  ghost predicate ReadsEntry(w: InBalance, e: EntryBytes) {
    && w.unlockAtBlock == FromLittleEndian(e.unlockAtBlock)
    && w.amountToUnlock == FromLittleEndian(e.amountToUnlock)
    && w.storageFeeRefund == FromLittleEndian(e.storageFeeRefund)
  }

  lemma {:induction false} EntryLayout(e: EntryBytes, rest: Bytes)
    requires e.Sized()
    ensures ParseInBalance(e.Flat() + rest)
            == Parsed(InBalance(FromLittleEndian(e.unlockAtBlock), FromLittleEndian(e.amountToUnlock),
                                FromLittleEndian(e.storageFeeRefund)), rest)
  {
    var s := e.Flat() + rest;
    assert s[0..4] == e.unlockAtBlock;
    assert s[4..20] == e.amountToUnlock;
    assert s[20..36] == e.storageFeeRefund;
    assert s[36..] == rest;
  }

  ghost predicate ReadsQueue(read: Parsed<seq<InBalance>>, entries: seq<EntryBytes>, rest: Bytes) {
    && read.Parsed? && read.rest == rest && |read.value| == |entries|
    && forall i | 0 <= i < |entries| :: ReadsEntry(read.value[i], entries[i])
  }

  lemma ReadsOneMoreEntry(
    queue: seq<InBalance>, w: InBalance, entries: seq<EntryBytes>, left: Bytes, rest: Bytes)
    requires entries != [] && ReadsQueue(Parsed(queue, left), entries[..|entries| - 1], left)
    requires ReadsEntry(w, entries[|entries| - 1])
    ensures ReadsQueue(Parsed(queue + [w], rest), entries, rest)
  {
  }

  lemma {:induction false} QueueLayout(entries: seq<EntryBytes>, rest: Bytes)
    requires AllSized(entries)
    ensures ReadsQueue(ParseMany(ParseInBalance, |entries|, FlatEntries(entries) + rest), entries, rest)
  {
    if entries == [] {
      assert [] + rest == rest;
    } else {
      var init, last := entries[..|entries| - 1], entries[|entries| - 1];
      assert last in entries;
      QueueLayout(init, last.Flat() + rest);
      EntryLayout(last, rest);
      Assoc(FlatEntries(init), last.Flat(), rest);
      var before := ParseMany(ParseInBalance, |init|, FlatEntries(init) + (last.Flat() + rest));
      ReadsOneMoreEntry(before.value, ParseInBalance(before.rest).value, entries, before.rest, rest);
    }
  }

  /** No withdrawal in shares: the last queue entry's amount and refund are kept, or zeros of an empty queue. */
  lemma {:induction false} ConvertedLayout(
    total: Bytes, fee: Bytes, length: Bytes, entries: seq<EntryBytes>, rest: Bytes)
    requires |total| == 16 && |fee| == 16 && AllSized(entries)
    requires ParseCompact(length + (FlatEntries(entries) + ([0] + rest)))
             == Parsed(|entries|, FlatEntries(entries) + ([0] + rest))
    ensures ParseWithdrawal((total + fee) + (length + (FlatEntries(entries) + ([0] + rest))))
            == Parsed(
                 if entries == [] then NominatorWithdrawal(0, 0, 0)
                 else
                   var last := entries[|entries| - 1];
                   NominatorWithdrawal(
                     0, FromLittleEndian(last.amountToUnlock), FromLittleEndian(last.storageFeeRefund)),
                 rest)
  {
    var listed := length + (FlatEntries(entries) + ([0] + rest));
    assert ((total + fee) + listed)[32..] == listed;
    QueueLayout(entries, [0] + rest);
    assert ([0] + rest)[1..] == rest;
  }

  /** The bytes of a withdrawal in shares, after its tag. */
  datatype SharesBytes = SharesBytes(
    domainId: Bytes, epochIndex: Bytes, unlockAtBlock: Bytes, shares: Bytes, storageFeeRefund: Bytes)
  {
    predicate Sized() {
      |domainId| == 4 && |epochIndex| == 4 && |unlockAtBlock| == 4 && |shares| == 16 && |storageFeeRefund| == 16
    }

    function Flat(): Bytes { domainId + epochIndex + unlockAtBlock + shares + storageFeeRefund }
  }

  lemma {:induction false} SharesFields(tag: Byte, w: SharesBytes, rest: Bytes)
    requires w.Sized()
    ensures var s := [tag] + (w.Flat() + rest);
            && |s| >= 45 && s[45..] == rest
            && At(s, 13, 16) == FromLittleEndian(w.shares) && At(s, 29, 16) == FromLittleEndian(w.storageFeeRefund)
  {
    var s := [tag] + (w.Flat() + rest);
    assert s[13..29] == w.shares;
    assert s[29..45] == w.storageFeeRefund;
  }

  /** A withdrawal in shares: its shares and refund are kept, whatever is in the queue. */
  lemma {:induction false} InSharesLayout(
    total: Bytes, fee: Bytes, length: Bytes, entries: seq<EntryBytes>, tag: Byte, w: SharesBytes, rest: Bytes)
    requires |total| == 16 && |fee| == 16 && AllSized(entries) && tag > 0 && w.Sized()
    requires ParseCompact(length + (FlatEntries(entries) + ([tag] + (w.Flat() + rest))))
             == Parsed(|entries|, FlatEntries(entries) + ([tag] + (w.Flat() + rest)))
    ensures ParseWithdrawal((total + fee) + (length + (FlatEntries(entries) + ([tag] + (w.Flat() + rest)))))
            == Parsed(NominatorWithdrawal(FromLittleEndian(w.shares), 0, FromLittleEndian(w.storageFeeRefund)), rest)
  {
    var option := [tag] + (w.Flat() + rest);
    var listed := length + (FlatEntries(entries) + option);
    assert ((total + fee) + listed)[32..] == listed;
    QueueLayout(entries, option);
    SharesFields(tag, w, rest);
  }

  // Staking summaries

  /** The bytes of one operator's stake. */
  datatype StakeBytes = StakeBytes(operatorId: Bytes, amount: Bytes) {
    predicate Sized() { |operatorId| == 8 && |amount| == 16 }

    function Flat(): Bytes { operatorId + amount }
  }

  function FlatStakes(stakes: seq<StakeBytes>): Bytes {
    if stakes == [] then [] else FlatStakes(stakes[..|stakes| - 1]) + stakes[|stakes| - 1].Flat()
  }

  lemma {:induction false} StakeLayout(stake: StakeBytes, rest: Bytes)
    requires stake.Sized()
    ensures ParseStake(stake.Flat() + rest)
            == Parsed(Stake(FromLittleEndian(stake.operatorId), FromLittleEndian(stake.amount)), rest)
  {
    var s := stake.Flat() + rest;
    assert s[0..8] == stake.operatorId;
    assert s[8..24] == stake.amount;
    assert s[24..] == rest;
  }

  ghost predicate ReadsStakes(read: Parsed<seq<Stake>>, stakes: seq<StakeBytes>, rest: Bytes) {
    && read.Parsed? && read.rest == rest && |read.value| == |stakes|
    && forall i | 0 <= i < |stakes| ::
         && read.value[i].operatorId == FromLittleEndian(stakes[i].operatorId)
         && read.value[i].amount == FromLittleEndian(stakes[i].amount)
  }

  lemma ReadsOneMoreStake(read: seq<Stake>, stake: Stake, stakes: seq<StakeBytes>, left: Bytes, rest: Bytes)
    requires stakes != [] && ReadsStakes(Parsed(read, left), stakes[..|stakes| - 1], left)
    requires stake.operatorId == FromLittleEndian(stakes[|stakes| - 1].operatorId)
    requires stake.amount == FromLittleEndian(stakes[|stakes| - 1].amount)
    ensures ReadsStakes(Parsed(read + [stake], rest), stakes, rest)
  {
  }

  lemma {:induction false} StakesLayout(stakes: seq<StakeBytes>, rest: Bytes)
    requires forall stake | stake in stakes :: stake.Sized()
    ensures ReadsStakes(ParseMany(ParseStake, |stakes|, FlatStakes(stakes) + rest), stakes, rest)
  {
    if stakes == [] {
      assert [] + rest == rest;
    } else {
      var init, last := stakes[..|stakes| - 1], stakes[|stakes| - 1];
      assert last in stakes;
      StakesLayout(init, last.Flat() + rest);
      StakeLayout(last, rest);
      Assoc(FlatStakes(init), last.Flat(), rest);
      var before := ParseMany(ParseStake, |init|, FlatStakes(init) + (last.Flat() + rest));
      ReadsOneMoreStake(before.value, ParseStake(before.rest).value, stakes, before.rest, rest);
    }
  }

  /** An operator is in the map if some entry names it, with the amount of the last one that does. */
  lemma {:induction false} LastStakeCounts(stakes: seq<Stake>, i: nat)
    requires i < |stakes| && forall j | i < j < |stakes| :: stakes[j].operatorId != stakes[i].operatorId
    ensures stakes[i].operatorId in Inserted(stakes) && Inserted(stakes)[stakes[i].operatorId] == stakes[i].amount
  {
    if i < |stakes| - 1 {
      LastStakeCounts(stakes[..|stakes| - 1], i);
    }
  }

  lemma {:induction false} OnlyListed(stakes: seq<Stake>, id: U64)
    requires id in Inserted(stakes)
    ensures exists i :: 0 <= i < |stakes| && stakes[i].operatorId == id
  {
    if stakes[|stakes| - 1].operatorId != id {
      OnlyListed(stakes[..|stakes| - 1], id);
      var i :| 0 <= i < |stakes| - 1 && stakes[..|stakes| - 1][i].operatorId == id;
      assert stakes[i].operatorId == id;
    }
  }

  /** The stakes of a summary are read from their own bytes; the epoch and the total before them are skipped. */
  lemma {:induction false} SummaryLayout(
    epoch: Bytes, total: Bytes, length: Bytes, stakes: seq<StakeBytes>, rest: Bytes, i: nat)
    requires |epoch| == 4 && |total| == 16 && forall stake | stake in stakes :: stake.Sized()
    requires ParseCompact(length + (FlatStakes(stakes) + rest)) == Parsed(|stakes|, FlatStakes(stakes) + rest)
    requires i < |stakes| && forall j | i < j < |stakes| ::
               FromLittleEndian(stakes[j].operatorId) != FromLittleEndian(stakes[i].operatorId)
    ensures var read := ParseSummary((epoch + total) + (length + (FlatStakes(stakes) + rest)));
            && read.Parsed? && read.rest == rest
            && FromLittleEndian(stakes[i].operatorId) in read.value
            && read.value[FromLittleEndian(stakes[i].operatorId)] == FromLittleEndian(stakes[i].amount)
  {
    var listed := length + (FlatStakes(stakes) + rest);
    assert ((epoch + total) + listed)[20..] == listed;
    StakesLayout(stakes, rest);
    LastStakeCounts(ParseMany(ParseStake, |stakes|, FlatStakes(stakes) + rest).value, i);
  }
}
