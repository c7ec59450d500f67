/** The decoder for a nominator's pending withdrawals, which keeps only the latest one. */
module Withdrawals {
  import opened OnChain
  import opened Outcomes
  import opened Scale

  datatype InBalance = InBalance(unlockAtBlock: U32, amountToUnlock: U128, storageFeeRefund: U128)

  datatype InShares = InShares(
    domainId: U32, epochIndex: U32, unlockAtBlock: U32, shares: U128, storageFeeRefund: U128)

  function EncodeInBalance(w: InBalance, rest: Bytes): Bytes {
    Put(w.unlockAtBlock, 4, Put(w.amountToUnlock, 16, Put(w.storageFeeRefund, 16, rest)))
  }

  function ParseInBalance(s: Bytes): Parsed<InBalance> {
    if |s| < 36 then Invalid(NotEnoughData)
    else Parsed(InBalance(At(s, 0, 4), At(s, 4, 16), At(s, 20, 16)), s[36..])
  }

  lemma {:induction false} InBalanceRoundTrip(w: InBalance, rest: Bytes)
    ensures ParseInBalance(EncodeInBalance(w, rest)) == Parsed(w, rest)
  {
    var s := EncodeInBalance(w, rest);
    var f2 := Put(w.storageFeeRefund, 16, rest);
    var f1 := Put(w.amountToUnlock, 16, f2);
    PutAt(s, 0, w.unlockAtBlock, 4, f1);
    PutAt(s, 4, w.amountToUnlock, 16, f2);
    PutAt(s, 20, w.storageFeeRefund, 16, rest);
  }

  lemma InBalanceReadsBack()
    ensures ReadsBack(ParseInBalance, EncodeInBalance)
  {
    forall w: InBalance, rest: Bytes
      ensures ParseInBalance(EncodeInBalance(w, rest)) == Parsed(w, rest)
    {
      InBalanceRoundTrip(w, rest);
    }
  }

  lemma InBalanceAcceptsEncodings()
    ensures AcceptsEncodings(ParseInBalance, EncodeInBalance)
  {
    forall s: Bytes | ParseInBalance(s).Parsed?
      ensures s == EncodeInBalance(ParseInBalance(s).value, ParseInBalance(s).rest)
    {
      PutRead(s, 0, 4);
      PutRead(s, 4, 16);
      PutRead(s, 20, 16);
      assert s[0..] == s;
    }
  }

  lemma InBalanceKeepsRest()
    ensures KeepsRest(EncodeInBalance)
  {
    forall w: InBalance, rest: Bytes, t: Bytes
      ensures EncodeInBalance(w, rest) + t == EncodeInBalance(w, rest + t)
    {
      Append3(ToLittleEndian(w.unlockAtBlock, 4), ToLittleEndian(w.amountToUnlock, 16),
              ToLittleEndian(w.storageFeeRefund, 16), rest, t);
    }
  }

  /** The withdrawal in shares, in front of other bytes. */
  function EncodeInShares(w: InShares, rest: Bytes): Bytes {
    Put(w.domainId, 4, Put(w.epochIndex, 4, Put(w.unlockAtBlock, 4,
      Put(w.shares, 16, Put(w.storageFeeRefund, 16, rest)))))
  }

  /** The stored value; `inShares` is present until an epoch change has moved it into the queue. */
  datatype ChainWithdrawal = ChainWithdrawal(
    totalAmount: U128, totalStorageFee: U128, withdrawals: seq<InBalance>, inShares: Option<InShares>)
  {
    predicate Valid() { |withdrawals| < 0x1_0000_0000 }

    function Option(tag: Byte, rest: Bytes): Bytes {
      match inShares
      case None => [0] + rest
      case Some(w) => [tag] + EncodeInShares(w, rest)
    }

    /** The encoding in front of other bytes; `tag` is the byte that marks a withdrawal in shares, on chain 1. */
    function Encoded(tag: Byte, rest: Bytes): Bytes
      requires Valid()
    {
      Put(totalAmount, 16, Put(totalStorageFee, 16,
        EncodeCompact(|withdrawals|) + EncodeMany(EncodeInBalance, withdrawals, Option(tag, rest))))
    }

    function Encoding(tag: Byte): Bytes
      requires Valid()
    {
      Encoded(tag, [])
    }

    /** The shares if present, else the amounts of the last queue entry, or zeros. */
    function Kept(): NominatorWithdrawal {
      match inShares
      case Some(w) => NominatorWithdrawal(w.shares, 0, w.storageFeeRefund)
      case None => LastOf(withdrawals)
    }
  }

  function LastOf(queue: seq<InBalance>): NominatorWithdrawal {
    if queue == [] then NominatorWithdrawal(0, 0, 0)
    else NominatorWithdrawal(0, queue[|queue| - 1].amountToUnlock, queue[|queue| - 1].storageFeeRefund)
  }

  function ParseOption(queue: seq<InBalance>, s: Bytes): Parsed<NominatorWithdrawal> {
    if s == [] then Invalid(NotEnoughData)
    else if s[0] == 0 then Parsed(LastOf(queue), s[1..])
    else if |s| < 45 then Invalid(NotEnoughData)
    else Parsed(NominatorWithdrawal(At(s, 13, 16), 0, At(s, 29, 16)), s[45..])
  }

  function ParseQueue(s: Bytes): Parsed<seq<InBalance>> {
    match ParseCompact(s)
    case Invalid(error) => Invalid(error)
    case Parsed(n, entries) => ParseMany(ParseInBalance, n, entries)
  }

  function ParseWithdrawal(s: Bytes): Parsed<NominatorWithdrawal> {
    if |s| < 32 then Invalid(NotEnoughData)
    else
      match ParseQueue(s[32..])
      case Invalid(error) => Invalid(error)
      case Parsed(queue, rest) => ParseOption(queue, rest)
  }

  lemma {:induction false} OptionEncoded(w: ChainWithdrawal, tag: Byte, rest: Bytes)
    ensures w.Option(tag, rest) == w.Option(tag, []) + rest
  {
    assert [] + rest == rest;
    if w.inShares.Some? {
      var x := w.inShares.value;
      var d, e := ToLittleEndian(x.shares, 16), ToLittleEndian(x.storageFeeRefund, 16);
      Assoc(e, [], rest);
      Assoc(d, e + [], rest);
      Append3(ToLittleEndian(x.domainId, 4), ToLittleEndian(x.epochIndex, 4), ToLittleEndian(x.unlockAtBlock, 4),
              d + (e + []), rest);
      Assoc([tag], EncodeInShares(x, []), rest);
    }
  }

  lemma {:induction false} WithdrawalEncoded(w: ChainWithdrawal, tag: Byte, rest: Bytes)
    requires w.Valid()
    ensures w.Encoded(tag, rest) == w.Encoding(tag) + rest
  {
    OptionEncoded(w, tag, rest);
    InBalanceKeepsRest();
    ManyAppend(EncodeInBalance, w.withdrawals, w.Option(tag, []), rest);
    Append3(ToLittleEndian(w.totalAmount, 16), ToLittleEndian(w.totalStorageFee, 16), EncodeCompact(|w.withdrawals|),
            EncodeMany(EncodeInBalance, w.withdrawals, w.Option(tag, [])), rest);
  }

  lemma {:induction false} ReadInShares(s: Bytes, tag: Byte, w: InShares, rest: Bytes)
    requires s == [tag] + EncodeInShares(w, rest)
    ensures |s| >= 45 && At(s, 13, 16) == w.shares && At(s, 29, 16) == w.storageFeeRefund && s[45..] == rest
  {
    var f4 := Put(w.storageFeeRefund, 16, rest);
    var f3 := Put(w.shares, 16, f4);
    var f2 := Put(w.unlockAtBlock, 4, f3);
    var f1 := Put(w.epochIndex, 4, f2);
    PutAt(s, 1, w.domainId, 4, f1);
    PutAt(s, 5, w.epochIndex, 4, f2);
    PutAt(s, 9, w.unlockAtBlock, 4, f3);
    PutAt(s, 13, w.shares, 16, f4);
    PutAt(s, 29, w.storageFeeRefund, 16, rest);
  }

  lemma {:induction false} QueueRoundTrip(queue: seq<InBalance>, rest: Bytes)
    requires |queue| < 0x1_0000_0000
    ensures ParseQueue(EncodeCompact(|queue|) + EncodeMany(EncodeInBalance, queue, rest)) == Parsed(queue, rest)
  {
    CompactRoundTrip(|queue|, EncodeMany(EncodeInBalance, queue, rest));
    InBalanceReadsBack();
    ManyRoundTrip(ParseInBalance, EncodeInBalance, queue, rest);
  }

  lemma {:induction false} OptionRoundTrip(w: ChainWithdrawal, tag: Byte, rest: Bytes)
    requires tag > 0
    ensures ParseOption(w.withdrawals, w.Option(tag, rest)) == Parsed(w.Kept(), rest)
  {
    if w.inShares.Some? {
      ReadInShares(w.Option(tag, rest), tag, w.inShares.value, rest);
    } else {
      assert ([0] + rest)[1..] == rest;
    }
  }

  /** Decoding an encoding and anything after it gives the kept amounts and leaves what follows. */
  lemma {:induction false} WithdrawalRoundTrip(w: ChainWithdrawal, tag: Byte, rest: Bytes)
    requires w.Valid() && tag > 0
    ensures ParseWithdrawal(w.Encoding(tag) + rest) == Parsed(w.Kept(), rest)
  {
    WithdrawalEncoded(w, tag, rest);
    var s := w.Encoded(tag, rest);
    var listed := EncodeCompact(|w.withdrawals|) + EncodeMany(EncodeInBalance, w.withdrawals, w.Option(tag, rest));
    PutAt(s, 0, w.totalAmount, 16, Put(w.totalStorageFee, 16, listed));
    PutAt(s, 16, w.totalStorageFee, 16, listed);
    QueueRoundTrip(w.withdrawals, w.Option(tag, rest));
    OptionRoundTrip(w, tag, rest);
  }

  /** The tail after the option byte is that of the entry read at its offsets. */
  lemma {:induction false} InSharesRead(s: Bytes)
    requires |s| >= 45
    ensures s[1..] == Put(At(s, 1, 4), 4, Put(At(s, 5, 4), 4, Put(At(s, 9, 4), 4,
              Put(At(s, 13, 16), 16, Put(At(s, 29, 16), 16, s[45..])))))
  {
    PutRead(s, 1, 4);
    PutRead(s, 5, 4);
    PutRead(s, 9, 4);
    PutRead(s, 13, 16);
    PutRead(s, 29, 16);
  }

  lemma {:induction false} OptionAccepts(queue: seq<InBalance>, s: Bytes, total: U128, fee: U128)
    returns (w: ChainWithdrawal, tag: Byte)
    requires ParseOption(queue, s).Parsed?
    ensures w.withdrawals == queue && w.totalAmount == total && w.totalStorageFee == fee
    ensures tag > 0 && s == w.Option(tag, ParseOption(queue, s).rest) && w.Kept() == ParseOption(queue, s).value
  {
    assert s == [s[0]] + s[1..];
    if s[0] == 0 {
      w, tag := ChainWithdrawal(total, fee, queue, None), 1;
    } else {
      InSharesRead(s);
      tag := s[0];
      w := ChainWithdrawal(
        total, fee, queue,
        Some(InShares(At(s, 1, 4), At(s, 5, 4), At(s, 9, 4), At(s, 13, 16), At(s, 29, 16))));
    }
  }

  /** Whatever is accepted begins with an encoding, up to the tag byte, of which any non-zero value is taken. */
  lemma {:induction false} WithdrawalAcceptsEncodings(s: Bytes) returns (w: ChainWithdrawal, tag: Byte)
    requires ParseWithdrawal(s).Parsed?
    ensures w.Valid() && tag > 0 && ParseWithdrawal(s).value == w.Kept()
    ensures s == w.Encoding(tag) + ParseWithdrawal(s).rest
  {
    PutRead(s, 0, 16);
    PutRead(s, 16, 16);
    assert s[0..] == s;
    var length := ParseCompact(s[32..]);
    CompactIsCanonical(s[32..]);
    InBalanceAcceptsEncodings();
    ManyAccepts(ParseInBalance, EncodeInBalance, length.value, length.rest);
    var queue := ParseMany(ParseInBalance, length.value, length.rest);
    w, tag := OptionAccepts(queue.value, queue.rest, At(s, 0, 16), At(s, 16, 16));
    WithdrawalEncoded(w, tag, ParseWithdrawal(s).rest);
  }

  lemma {:induction false} WithdrawalExtends(s: Bytes, t: Bytes)
    requires ParseWithdrawal(s).Parsed?
    ensures ParseWithdrawal(s + t) == Parsed(ParseWithdrawal(s).value, ParseWithdrawal(s).rest + t)
  {
    var w, tag := WithdrawalAcceptsEncodings(s);
    WithdrawalRoundTrip(w, tag, ParseWithdrawal(s).rest + t);
    Assoc(w.Encoding(tag), ParseWithdrawal(s).rest, t);
  }

  lemma {:induction false} WithdrawalNeedsAll(s: Bytes, k: nat)
    requires k < |s| && ParseWithdrawal(s).Parsed? && ParseWithdrawal(s).rest == []
    ensures ParseWithdrawal(s[..k]).Invalid?
  {
    assert s[..k] + s[k..] == s;
    if ParseWithdrawal(s[..k]).Parsed? {
      WithdrawalExtends(s[..k], s[k..]);
    }
  }

  /** No strict prefix of an encoding is accepted. */
  lemma {:induction false} WithdrawalPrefixRejected(w: ChainWithdrawal, tag: Byte, k: nat)
    requires w.Valid() && tag > 0 && k < |w.Encoding(tag)|
    ensures ParseWithdrawal(w.Encoding(tag)[..k]).Invalid?
  {
    assert w.Encoding(tag) + [] == w.Encoding(tag);
    WithdrawalRoundTrip(w, tag, []);
    WithdrawalNeedsAll(w.Encoding(tag), k);
  }

  /** One queue entry; only its amounts are kept. */
  method DecodeInBalance(input: Input) returns (r: Result<(nat, nat), DecodeError>)
    modifies input
    ensures match ParseInBalance(old(input.rest))
            case Invalid(error) => r == Err(error)
            case Parsed(w, rest) => r == Ok((w.amountToUnlock, w.storageFeeRefund)) && input.rest == rest
  {
    ghost var s := input.rest;
    var unlockAtBlock := input.ReadUint(4);
    if unlockAtBlock.Err? { return Err(unlockAtBlock.error); }
    var amount := input.ReadUint(16);
    if amount.Err? { return Err(amount.error); }
    AtTail(s, 4, 0, 16);
    var refund := input.ReadUint(16);
    if refund.Err? { return Err(refund.error); }
    AtTail(s, 20, 0, 16);
    r := Ok((amount.value, refund.value));
  }

  /** The last of the entries read so far is kept. */
  ghost predicate KeptLast(entries: Bytes, i: nat, rest: Bytes, amount: nat, refund: nat) {
    var read := ParseMany(ParseInBalance, i, entries);
    read.Parsed? && read.rest == rest && LastOf(read.value) == NominatorWithdrawal(0, amount, refund)
  }

  lemma KeepsLast(entries: Bytes, i: nat, rest: Bytes, amount: nat, refund: nat)
    requires KeptLast(entries, i, rest, amount, refund) && ParseInBalance(rest).Parsed?
    ensures var entry := ParseInBalance(rest).value;
            KeptLast(entries, i + 1, ParseInBalance(rest).rest, entry.amountToUnlock, entry.storageFeeRefund)
  {
  }

  lemma QueueFails(entries: Bytes, i: nat, n: nat, rest: Bytes, amount: nat, refund: nat)
    requires KeptLast(entries, i, rest, amount, refund) && ParseInBalance(rest).Invalid? && i < n
    ensures ParseMany(ParseInBalance, n, entries) == Invalid(ParseInBalance(rest).error)
  {
    FailedEntryFailsAll(ParseInBalance, i + 1, n, entries);
  }

  /** The loop over the queue: each entry overwrites what is kept of the one before. */
  method DecodeQueue(input: Input) returns (r: Result<NominatorWithdrawal, DecodeError>)
    modifies input
    ensures match ParseQueue(old(input.rest))
            case Invalid(error) => r == Err(error)
            case Parsed(queue, rest) => r == Ok(LastOf(queue)) && input.rest == rest
  {
    var len := input.DecodeCompact();
    if len.Err? { return Err(len.error); }
    ghost var entries := input.rest;
    var lastAmount, lastRefund := 0, 0;
    for i := 0 to len.value
      invariant KeptLast(entries, i, input.rest, lastAmount, lastRefund)
    {
      ghost var rest := input.rest;
      var entry := DecodeInBalance(input);
      if entry.Err? {
        QueueFails(entries, i, len.value, rest, lastAmount, lastRefund);
        return Err(entry.error);
      }
      KeepsLast(entries, i, rest, lastAmount, lastRefund);
      lastAmount, lastRefund := entry.value.0, entry.value.1;
    }
    r := Ok(NominatorWithdrawal(0, lastAmount, lastRefund));
  }

  /** The withdrawal in shares, or `fallback` when there is none. */
  method DecodeOption(input: Input, fallback: NominatorWithdrawal, ghost queue: seq<InBalance>)
    returns (r: Result<NominatorWithdrawal, DecodeError>)
    requires fallback == LastOf(queue)
    modifies input
    ensures Agrees(r, input.rest, ParseOption(queue, old(input.rest)))
  {
    ghost var s := input.rest;
    var variant := input.ReadUint(1);
    if variant.Err? { return Err(variant.error); }
    assert variant.value == s[0] by { assert s[0..1][0] == s[0]; }
    if variant.value == 0 {
      return Ok(fallback);
    }
    var domainId := input.ReadUint(4);
    if domainId.Err? { return Err(domainId.error); }
    var epochIndex := input.ReadUint(4);
    if epochIndex.Err? { return Err(epochIndex.error); }
    var unlockAtBlock := input.ReadUint(4);
    if unlockAtBlock.Err? { return Err(unlockAtBlock.error); }
    assert input.rest == s[13..];
    var shares := input.ReadUint(16);
    if shares.Err? { return Err(shares.error); }
    AtTail(s, 13, 0, 16);
    var storageFeeRefund := input.ReadUint(16);
    if storageFeeRefund.Err? { return Err(storageFeeRefund.error); }
    AtTail(s, 29, 0, 16);
    r := Ok(NominatorWithdrawal(shares.value, 0, storageFeeRefund.value));
  }

  method DecodeWithdrawal(input: Input) returns (r: Result<NominatorWithdrawal, DecodeError>)
    modifies input
    ensures Agrees(r, input.rest, ParseWithdrawal(old(input.rest)))
  {
    ghost var s := input.rest;
    var totalWithdrawalAmount := input.ReadUint(16);
    if totalWithdrawalAmount.Err? { return Err(totalWithdrawalAmount.error); }
    var totalStorageFeeWithdrawal := input.ReadUint(16);
    if totalStorageFeeWithdrawal.Err? { return Err(totalStorageFeeWithdrawal.error); }
    assert input.rest == s[32..];
    var last := DecodeQueue(input);
    if last.Err? { return Err(last.error); }
    r := DecodeOption(input, last.value, ParseQueue(s[32..]).value);
  }
}
