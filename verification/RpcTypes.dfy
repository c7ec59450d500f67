/**
 The partial decoders for operator storage: they read past the fields the indexer does not keep.

 Each decoder has a layout (the on-chain value and its encoding) and a parser that states, by offsets,
 what the front of any input decodes to. The parser accepts exactly the inputs that begin with an
 encoding, and gives that value's projection and what follows it.
 */
module RpcTypes {
  import opened OnChain
  import opened Outcomes
  import opened Scale
  import T = Tables

  // Operator status

  datatype ChainStatus =
    | Registered
    | Deregistered(domainId: U32, epochIndex: U32, unlockAtBlock: U32)
    | Slashed
    | PendingSlash
    | InvalidBundle(badReceiptHash: Bytes)
    | Deactivated(atEpochIndex: U32)
  {
    predicate Valid() { InvalidBundle? ==> |badReceiptHash| == 32 }

    function Compact(): T.OperatorStatus {
      match this
      case Registered => T.Registered
      case Deregistered(_, _, _) => T.Deregistered
      case Slashed => T.Slashed
      case PendingSlash => T.PendingSlash
      case InvalidBundle(_) => T.InvalidBundle
      case Deactivated(_) => T.Deactivated
    }

    /** The encoding in front of other bytes. */
    function Encoded(rest: Bytes): Bytes {
      match this
      case Registered => [0] + rest
      case Deregistered(domain, epoch, unlock) => [1] + Put(domain, 4, Put(epoch, 4, Put(unlock, 4, rest)))
      case Slashed => [2] + rest
      case PendingSlash => [3] + rest
      case InvalidBundle(hash) => [4] + (hash + rest)
      case Deactivated(epoch) => [5] + Put(epoch, 4, rest)
    }

    function Encoding(): Bytes { Encoded([]) }
  }

  /** The status a variant index stands for, and how many bytes of it are skipped. */
  function Variant(index: Byte): Option<(T.OperatorStatus, nat)> {
    match index
    case 0 => Some((T.Registered, 0))
    case 1 => Some((T.Deregistered, 12))
    case 2 => Some((T.Slashed, 0))
    case 3 => Some((T.PendingSlash, 0))
    case 4 => Some((T.InvalidBundle, 32))
    case 5 => Some((T.Deactivated, 4))
    case _ => None
  }

  function ParseStatus(s: Bytes): Parsed<T.OperatorStatus> {
    if s == [] then Invalid(NotEnoughData)
    else
      match Variant(s[0])
      case None => Invalid(UnknownVariant(s[0]))
      case Some((status, skipped)) =>
        if |s| < 1 + skipped then Invalid(NotEnoughData) else Parsed(status, s[1 + skipped..])
  }

  lemma {:induction false} StatusEncoded(status: ChainStatus, rest: Bytes)
    ensures status.Encoded(rest) == status.Encoding() + rest
  {
    match status
    case Deregistered(domain, epoch, unlock) =>
      PutAppend(unlock, 4, [], rest);
      PutAppend(epoch, 4, Put(unlock, 4, []), rest);
      PutAppend(domain, 4, Put(epoch, 4, Put(unlock, 4, [])), rest);
    case Deactivated(epoch) => PutAppend(epoch, 4, [], rest);
    case _ =>
  }

  /** Decoding an encoding and anything after it gives the compact status and leaves what follows. */
  lemma {:induction false} StatusRoundTrip(status: ChainStatus, rest: Bytes)
    requires status.Valid()
    ensures ParseStatus(status.Encoding() + rest) == Parsed(status.Compact(), rest)
  {
    StatusEncoded(status, rest);
    var s := status.Encoded(rest);
    match status
    case Deregistered(domain, epoch, unlock) =>
      assert s[13..] == s[1..][4..][4..][4..];
      ReadPut(domain, 4, Put(epoch, 4, Put(unlock, 4, rest)));
      ReadPut(epoch, 4, Put(unlock, 4, rest));
      ReadPut(unlock, 4, rest);
    case InvalidBundle(hash) => assert s[33..] == s[1..][32..] == rest;
    case Deactivated(epoch) =>
      assert s[5..] == s[1..][4..];
      ReadPut(epoch, 4, rest);
    case _ => assert s[1..] == rest;
  }

  /** Whatever is accepted begins with an encoding. */
  lemma {:induction false} StatusAcceptsEncodings(s: Bytes) returns (status: ChainStatus)
    requires ParseStatus(s).Parsed?
    ensures status.Valid() && ParseStatus(s).value == status.Compact()
    ensures s == status.Encoding() + ParseStatus(s).rest
  {
    assert s == [s[0]] + s[1..];
    match s[0] {
      case 0 => status := Registered;
      case 1 =>
        PutRead(s, 1, 4);
        PutRead(s, 5, 4);
        PutRead(s, 9, 4);
        status := Deregistered(At(s, 1, 4), At(s, 5, 4), At(s, 9, 4));
      case 2 => status := Slashed;
      case 3 => status := PendingSlash;
      case 4 =>
        status := InvalidBundle(s[1..33]);
        assert s[1..] == s[1..33] + s[33..];
      case _ =>
        PutRead(s, 1, 4);
        status := Deactivated(At(s, 1, 4));
    }
    StatusEncoded(status, ParseStatus(s).rest);
  }

  lemma {:induction false} StatusExtends(s: Bytes, t: Bytes)
    requires ParseStatus(s).Parsed?
    ensures ParseStatus(s + t) == Parsed(ParseStatus(s).value, ParseStatus(s).rest + t)
  {
    var status := StatusAcceptsEncodings(s);
    StatusRoundTrip(status, ParseStatus(s).rest + t);
    Assoc(status.Encoding(), ParseStatus(s).rest, t);
  }

  lemma {:induction false} StatusNeedsAll(s: Bytes, k: nat)
    requires k < |s| && ParseStatus(s).Parsed? && ParseStatus(s).rest == []
    ensures ParseStatus(s[..k]).Invalid?
  {
    assert s[..k] + s[k..] == s;
    if ParseStatus(s[..k]).Parsed? {
      StatusExtends(s[..k], s[k..]);
    }
  }

  /** No strict prefix of an encoding is accepted. */
  lemma {:induction false} StatusPrefixRejected(status: ChainStatus, k: nat)
    requires status.Valid() && k < |status.Encoding()|
    ensures ParseStatus(status.Encoding()[..k]).Invalid?
  {
    assert status.Encoding() + [] == status.Encoding();
    StatusRoundTrip(status, []);
    StatusNeedsAll(status.Encoding(), k);
  }

  method SkipDomainEpoch(input: Input) returns (r: Result<(), DecodeError>)
    modifies input
    ensures if |old(input.rest)| < 8 then r == Err(NotEnoughData) else r == Ok(()) && input.rest == old(input.rest)[8..]
  {
    var domainId := input.ReadUint(4);
    if domainId.Err? { return Err(domainId.error); }
    var epochIndex := input.ReadUint(4);
    if epochIndex.Err? { return Err(epochIndex.error); }
    r := Ok(());
  }

  method DecodeStatus(input: Input) returns (r: Result<T.OperatorStatus, DecodeError>)
    modifies input
    ensures Agrees(r, input.rest, ParseStatus(old(input.rest)))
  {
    ghost var s := input.rest;
    var variant := input.ReadUint(1);
    if variant.Err? { return Err(variant.error); }
    assert variant.value == s[0] by { assert s[0..1][0] == s[0]; }
    match variant.value
    case 0 => r := Ok(T.Registered);
    case 1 =>
      var skipped := SkipDomainEpoch(input);
      if skipped.Err? { return Err(skipped.error); }
      var unlockAtBlock := input.ReadUint(4);
      if unlockAtBlock.Err? { return Err(unlockAtBlock.error); }
      r := Ok(T.Deregistered);
    case 2 => r := Ok(T.Slashed);
    case 3 => r := Ok(T.PendingSlash);
    case 4 =>
      var badReceiptHash := input.ReadBytes(32);
      if badReceiptHash.Err? { return Err(badReceiptHash.error); }
      r := Ok(T.InvalidBundle);
    case 5 =>
      var atEpochIndex := input.ReadUint(4);
      if atEpochIndex.Err? { return Err(atEpochIndex.error); }
      r := Ok(T.Deactivated);
    case n => r := Err(UnknownVariant(n));
  }

  // Operators

  datatype ChainOperator = ChainOperator(
    signingKey: Bytes, currentDomainId: U32, nextDomainId: U32, minimumNominatorStake: U128, nominationTax: U8,
    currentTotalStake: U128, currentTotalShares: U128, status: ChainStatus, depositsInEpoch: U128,
    withdrawalsInEpoch: U128, totalStorageFeeDeposit: U128)
  {
    predicate Valid() { |signingKey| == 32 && status.Valid() }

    /** The fields after the status, in front of other bytes. */
    function Tail(rest: Bytes): Bytes {
      Put(depositsInEpoch, 16, Put(withdrawalsInEpoch, 16, Put(totalStorageFeeDeposit, 16, rest)))
    }

    /** The fields between the signing key and the status, in front of other bytes. */
    function Middle(rest: Bytes): Bytes {
      Put(currentDomainId, 4, Put(nextDomainId, 4, Put(minimumNominatorStake, 16, Put(nominationTax, 1,
        Put(currentTotalStake, 16, Put(currentTotalShares, 16, rest))))))
    }

    function Encoded(rest: Bytes): Bytes {
      signingKey + Middle(status.Encoded(Tail(rest)))
    }

    function Encoding(): Bytes { Encoded([]) }

    /** What the indexer keeps. */
    function Kept(): FullOperator {
      FullOperator(signingKey, currentDomainId, minimumNominatorStake, nominationTax, currentTotalStake,
                   currentTotalShares, status.Compact(), totalStorageFeeDeposit)
    }
  }

  const STATUS_OFFSET: nat := 89

  function ParseOperator(s: Bytes): Parsed<FullOperator> {
    if |s| < STATUS_OFFSET then Invalid(NotEnoughData)
    else
      match ParseStatus(s[STATUS_OFFSET..])
      case Invalid(error) => Invalid(error)
      case Parsed(status, tail) =>
        if |tail| < 48 then Invalid(NotEnoughData)
        else Parsed(FullOperator(s[..32], At(s, 32, 4), At(s, 40, 16), At(s, 56, 1), At(s, 57, 16), At(s, 73, 16),
                                 status, At(tail, 32, 16)),
                    tail[48..])
  }

  lemma {:induction false} MiddleAppend(operator: ChainOperator, rest: Bytes, t: Bytes)
    ensures operator.Middle(rest) + t == operator.Middle(rest + t)
  {
    var d, e := ToLittleEndian(operator.nominationTax, 1), ToLittleEndian(operator.currentTotalStake, 16);
    var f := ToLittleEndian(operator.currentTotalShares, 16);
    Append3(d, e, f, rest, t);
    Append3(ToLittleEndian(operator.currentDomainId, 4), ToLittleEndian(operator.nextDomainId, 4),
            ToLittleEndian(operator.minimumNominatorStake, 16), d + (e + (f + rest)), t);
  }

  lemma {:induction false} TailAppend(operator: ChainOperator, t: Bytes)
    ensures operator.Tail([]) + t == operator.Tail(t)
  {
    assert [] + t == t;
    Append3(ToLittleEndian(operator.depositsInEpoch, 16), ToLittleEndian(operator.withdrawalsInEpoch, 16),
            ToLittleEndian(operator.totalStorageFeeDeposit, 16), [], t);
  }

  lemma {:induction false} OperatorEncoded(operator: ChainOperator, rest: Bytes)
    ensures operator.Encoded(rest) == operator.Encoding() + rest
  {
    var tail := operator.Tail([]);
    TailAppend(operator, rest);
    StatusEncoded(operator.status, tail);
    StatusEncoded(operator.status, tail + rest);
    Assoc(operator.status.Encoding(), tail, rest);
    MiddleAppend(operator, operator.status.Encoded(tail), rest);
    Assoc(operator.signingKey, operator.Middle(operator.status.Encoded(tail)), rest);
  }

  lemma {:induction false} ReadTail(operator: ChainOperator, rest: Bytes)
    ensures var s := operator.Tail(rest);
            |s| >= 48 && At(s, 32, 16) == operator.totalStorageFeeDeposit && s[48..] == rest
  {
    var s := operator.Tail(rest);
    var f2 := Put(operator.totalStorageFeeDeposit, 16, rest);
    var f1 := Put(operator.withdrawalsInEpoch, 16, f2);
    PutAt(s, 0, operator.depositsInEpoch, 16, f1);
    PutAt(s, 16, operator.withdrawalsInEpoch, 16, f2);
    PutAt(s, 32, operator.totalStorageFeeDeposit, 16, rest);
  }

  lemma {:induction false} ReadMiddle(operator: ChainOperator, rest: Bytes)
    ensures var s := operator.Middle(rest);
            && |s| >= 57
            && At(s, 0, 4) == operator.currentDomainId && At(s, 8, 16) == operator.minimumNominatorStake
            && At(s, 24, 1) == operator.nominationTax && At(s, 25, 16) == operator.currentTotalStake
            && At(s, 41, 16) == operator.currentTotalShares && s[57..] == rest
  {
    var s := operator.Middle(rest);
    var f5 := Put(operator.currentTotalShares, 16, rest);
    var f4 := Put(operator.currentTotalStake, 16, f5);
    var f3 := Put(operator.nominationTax, 1, f4);
    var f2 := Put(operator.minimumNominatorStake, 16, f3);
    var f1 := Put(operator.nextDomainId, 4, f2);
    PutAt(s, 0, operator.currentDomainId, 4, f1);
    PutAt(s, 4, operator.nextDomainId, 4, f2);
    PutAt(s, 8, operator.minimumNominatorStake, 16, f3);
    PutAt(s, 24, operator.nominationTax, 1, f4);
    PutAt(s, 25, operator.currentTotalStake, 16, f5);
    PutAt(s, 41, operator.currentTotalShares, 16, rest);
  }

  /** Decoding an encoding and anything after it gives the kept fields and leaves what follows. */
  lemma {:induction false} OperatorRoundTrip(operator: ChainOperator, rest: Bytes)
    requires operator.Valid()
    ensures ParseOperator(operator.Encoding() + rest) == Parsed(operator.Kept(), rest)
  {
    OperatorEncoded(operator, rest);
    var s := operator.Encoded(rest);
    var tail := operator.Tail(rest);
    var middle := operator.Middle(operator.status.Encoded(tail));
    ReadMiddle(operator, operator.status.Encoded(tail));
    assert s[32..] == middle && s[..32] == operator.signingKey;
    AtTail(s, 32, 0, 4);
    AtTail(s, 32, 8, 16);
    AtTail(s, 32, 24, 1);
    AtTail(s, 32, 25, 16);
    AtTail(s, 32, 41, 16);
    StatusEncoded(operator.status, tail);
    StatusRoundTrip(operator.status, tail);
    ReadTail(operator, rest);
  }

  /** Whatever is accepted begins with an encoding. */
  lemma {:induction false} OperatorAcceptsEncodings(s: Bytes) returns (operator: ChainOperator)
    requires ParseOperator(s).Parsed?
    ensures operator.Valid() && ParseOperator(s).value == operator.Kept()
    ensures s == operator.Encoding() + ParseOperator(s).rest
  {
    var status := StatusAcceptsEncodings(s[STATUS_OFFSET..]);
    var tail := ParseStatus(s[STATUS_OFFSET..]).rest;
    operator := ChainOperator(
      s[..32], At(s, 32, 4), At(s, 36, 4), At(s, 40, 16), At(s, 56, 1), At(s, 57, 16), At(s, 73, 16), status,
      At(tail, 0, 16), At(tail, 16, 16), At(tail, 32, 16));
    TailRead(tail, operator);
    StatusEncoded(status, tail);
    MiddleRead(s, operator);
    assert s == s[..32] + s[32..];
    OperatorEncoded(operator, tail[48..]);
  }

  lemma {:induction false} TailRead(tail: Bytes, operator: ChainOperator)
    requires |tail| >= 48
    requires operator.depositsInEpoch == At(tail, 0, 16) && operator.withdrawalsInEpoch == At(tail, 16, 16)
    requires operator.totalStorageFeeDeposit == At(tail, 32, 16)
    ensures tail == operator.Tail(tail[48..])
  {
    PutRead(tail, 0, 16);
    PutRead(tail, 16, 16);
    PutRead(tail, 32, 16);
    assert tail[0..] == tail;
  }

  lemma {:induction false} MiddleRead(s: Bytes, operator: ChainOperator)
    requires |s| >= STATUS_OFFSET
    requires operator.currentDomainId == At(s, 32, 4) && operator.nextDomainId == At(s, 36, 4)
    requires operator.minimumNominatorStake == At(s, 40, 16) && operator.nominationTax == At(s, 56, 1)
    requires operator.currentTotalStake == At(s, 57, 16) && operator.currentTotalShares == At(s, 73, 16)
    ensures s[32..] == operator.Middle(s[STATUS_OFFSET..])
  {
    PutRead(s, 32, 4);
    PutRead(s, 36, 4);
    PutRead(s, 40, 16);
    PutRead(s, 56, 1);
    PutRead(s, 57, 16);
    PutRead(s, 73, 16);
  }

  lemma {:induction false} OperatorExtends(s: Bytes, t: Bytes)
    requires ParseOperator(s).Parsed?
    ensures ParseOperator(s + t) == Parsed(ParseOperator(s).value, ParseOperator(s).rest + t)
  {
    var operator := OperatorAcceptsEncodings(s);
    OperatorRoundTrip(operator, ParseOperator(s).rest + t);
    Assoc(operator.Encoding(), ParseOperator(s).rest, t);
  }

  lemma {:induction false} OperatorNeedsAll(s: Bytes, k: nat)
    requires k < |s| && ParseOperator(s).Parsed? && ParseOperator(s).rest == []
    ensures ParseOperator(s[..k]).Invalid?
  {
    assert s[..k] + s[k..] == s;
    if ParseOperator(s[..k]).Parsed? {
      OperatorExtends(s[..k], s[k..]);
    }
  }

  /** No strict prefix of an encoding is accepted. */
  lemma {:induction false} OperatorPrefixRejected(operator: ChainOperator, k: nat)
    requires operator.Valid() && k < |operator.Encoding()|
    ensures ParseOperator(operator.Encoding()[..k]).Invalid?
  {
    assert operator.Encoding() + [] == operator.Encoding();
    OperatorRoundTrip(operator, []);
    OperatorNeedsAll(operator.Encoding(), k);
  }

  /** The fields between the signing key and the status. */
  method DecodeMiddle(input: Input) returns (r: Result<(nat, nat, nat, nat, nat), DecodeError>)
    modifies input
    ensures var s := old(input.rest);
            if |s| < 57 then r == Err(NotEnoughData)
            else r == Ok((At(s, 0, 4), At(s, 8, 16), At(s, 24, 1), At(s, 25, 16), At(s, 41, 16)))
                 && input.rest == s[57..]
  {
    ghost var s := input.rest;
    var currentDomainId := input.ReadUint(4);
    if currentDomainId.Err? { return Err(currentDomainId.error); }
    var nextDomainId := input.ReadUint(4);
    if nextDomainId.Err? { return Err(nextDomainId.error); }
    AtTail(s, 4, 0, 4);
    var minimumNominatorStake := input.ReadUint(16);
    if minimumNominatorStake.Err? { return Err(minimumNominatorStake.error); }
    AtTail(s, 8, 0, 16);
    var nominationTax := input.ReadUint(1);
    if nominationTax.Err? { return Err(nominationTax.error); }
    AtTail(s, 24, 0, 1);
    var currentTotalStake := input.ReadUint(16);
    if currentTotalStake.Err? { return Err(currentTotalStake.error); }
    AtTail(s, 25, 0, 16);
    var currentTotalShares := input.ReadUint(16);
    if currentTotalShares.Err? { return Err(currentTotalShares.error); }
    AtTail(s, 41, 0, 16);
    r := Ok((currentDomainId.value, minimumNominatorStake.value, nominationTax.value, currentTotalStake.value,
             currentTotalShares.value));
  }

  /** The fields after the status. */
  method DecodeTail(input: Input) returns (r: Result<nat, DecodeError>)
    modifies input
    ensures var s := old(input.rest);
            if |s| < 48 then r == Err(NotEnoughData) else r == Ok(At(s, 32, 16)) && input.rest == s[48..]
  {
    ghost var s := input.rest;
    var depositsInEpoch := input.ReadUint(16);
    if depositsInEpoch.Err? { return Err(depositsInEpoch.error); }
    var withdrawalsInEpoch := input.ReadUint(16);
    if withdrawalsInEpoch.Err? { return Err(withdrawalsInEpoch.error); }
    AtTail(s, 16, 0, 16);
    var totalStorageFeeDeposit := input.ReadUint(16);
    if totalStorageFeeDeposit.Err? { return Err(totalStorageFeeDeposit.error); }
    AtTail(s, 32, 0, 16);
    r := Ok(totalStorageFeeDeposit.value);
  }

  lemma MiddleOffsets(s: Bytes)
    requires |s| >= STATUS_OFFSET
    ensures var m := s[32..];
            && At(m, 0, 4) == At(s, 32, 4) && At(m, 8, 16) == At(s, 40, 16) && At(m, 24, 1) == At(s, 56, 1)
            && At(m, 25, 16) == At(s, 57, 16) && At(m, 41, 16) == At(s, 73, 16) && m[57..] == s[STATUS_OFFSET..]
  {
    AtTail(s, 32, 0, 4);
    AtTail(s, 32, 8, 16);
    AtTail(s, 32, 24, 1);
    AtTail(s, 32, 25, 16);
    AtTail(s, 32, 41, 16);
  }

  method DecodeOperator(input: Input) returns (r: Result<FullOperator, DecodeError>)
    modifies input
    ensures Agrees(r, input.rest, ParseOperator(old(input.rest)))
  {
    ghost var s := input.rest;
    var signingKey := input.ReadBytes(32);
    if signingKey.Err? { return Err(signingKey.error); }
    var middle := DecodeMiddle(input);
    if middle.Err? { return Err(middle.error); }
    MiddleOffsets(s);
    var status := DecodeStatus(input);
    if status.Err? { return Err(status.error); }
    var totalStorageFeeDeposit := DecodeTail(input);
    if totalStorageFeeDeposit.Err? { return Err(totalStorageFeeDeposit.error); }
    var (currentDomainId, minimumNominatorStake, nominationTax, currentTotalStake, currentTotalShares) := middle.value;
    r := Ok(FullOperator(
              signingKey.value, currentDomainId, minimumNominatorStake, nominationTax, currentTotalStake,
              currentTotalShares, status.value, totalStorageFeeDeposit.value));
  }
}
