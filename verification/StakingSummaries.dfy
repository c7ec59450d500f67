/** The decoder for a domain's staking summary, which keeps the current operators' stakes. */
module StakingSummaries {
  import opened Outcomes
  import opened Scale

  datatype Stake = Stake(operatorId: U64, amount: U128)

  function EncodeStake(stake: Stake, rest: Bytes): Bytes {
    Put(stake.operatorId, 8, Put(stake.amount, 16, rest))
  }

  function ParseStake(s: Bytes): Parsed<Stake> {
    if |s| < 24 then Invalid(NotEnoughData) else Parsed(Stake(At(s, 0, 8), At(s, 8, 16)), s[24..])
  }

  /** The map the entries give when inserted in order: a repeated key keeps its last entry. */
  function Inserted(stakes: seq<Stake>): map<U64, U128> {
    if stakes == [] then map[]
    else Inserted(stakes[..|stakes| - 1])[stakes[|stakes| - 1].operatorId := stakes[|stakes| - 1].amount]
  }

  /** The decoded part of the stored value; `currentOperators` lists the map in ascending key order. */
  datatype ChainSummary = ChainSummary(currentEpochIndex: U32, currentTotalStake: U128, currentOperators: seq<Stake>) {
    predicate Valid() {
      && |currentOperators| < 0x1_0000_0000
      && forall i, j :: 0 <= i < j < |currentOperators| ==>
           currentOperators[i].operatorId < currentOperators[j].operatorId
    }

    function Encoded(rest: Bytes): Bytes
      requires |currentOperators| < 0x1_0000_0000
    {
      Put(currentEpochIndex, 4, Put(currentTotalStake, 16,
        EncodeCompact(|currentOperators|) + EncodeMany(EncodeStake, currentOperators, rest)))
    }

    function Encoding(): Bytes
      requires |currentOperators| < 0x1_0000_0000
    {
      Encoded([])
    }
  }

  function ParseSummary(s: Bytes): Parsed<map<U64, U128>> {
    if |s| < 20 then Invalid(NotEnoughData)
    else
      match ParseCompact(s[20..])
      case Invalid(error) => Invalid(error)
      case Parsed(n, entries) =>
        match ParseMany(ParseStake, n, entries)
        case Invalid(error) => Invalid(error)
        case Parsed(stakes, rest) => Parsed(Inserted(stakes), rest)
  }

  /** With distinct keys the inserted map holds exactly the listed entries. */
  lemma {:induction false} InsertedHoldsEntries(stakes: seq<Stake>, id: U64, amount: U128)
    requires forall i, j :: 0 <= i < j < |stakes| ==> stakes[i].operatorId != stakes[j].operatorId
    ensures id in Inserted(stakes) && Inserted(stakes)[id] == amount <==> Stake(id, amount) in stakes
  {
    if stakes != [] {
      var init, last := stakes[..|stakes| - 1], stakes[|stakes| - 1];
      InsertedHoldsEntries(init, id, amount);
      assert stakes == init + [last];
      assert forall s | s in init :: s.operatorId != last.operatorId;
    }
  }

  lemma {:induction false} StakeRoundTrip(stake: Stake, rest: Bytes)
    ensures ParseStake(EncodeStake(stake, rest)) == Parsed(stake, rest)
  {
    PutAt(EncodeStake(stake, rest), 0, stake.operatorId, 8, Put(stake.amount, 16, rest));
    PutAt(EncodeStake(stake, rest), 8, stake.amount, 16, rest);
  }

  lemma StakeReadsBack()
    ensures ReadsBack(ParseStake, EncodeStake)
  {
    forall stake: Stake, rest: Bytes
      ensures ParseStake(EncodeStake(stake, rest)) == Parsed(stake, rest)
    {
      StakeRoundTrip(stake, rest);
    }
  }

  lemma StakeAcceptsEncodings()
    ensures AcceptsEncodings(ParseStake, EncodeStake)
  {
    forall s: Bytes | ParseStake(s).Parsed?
      ensures s == EncodeStake(ParseStake(s).value, ParseStake(s).rest)
    {
      PutRead(s, 0, 8);
      PutRead(s, 8, 16);
      assert s[0..] == s;
    }
  }

  lemma StakeKeepsRest()
    ensures KeepsRest(EncodeStake)
  {
    forall stake: Stake, rest: Bytes, t: Bytes
      ensures EncodeStake(stake, rest) + t == EncodeStake(stake, rest + t)
    {
      Assoc(ToLittleEndian(stake.amount, 16), rest, t);
      Assoc(ToLittleEndian(stake.operatorId, 8), Put(stake.amount, 16, rest), t);
    }
  }

  lemma {:induction false} SummaryEncoded(summary: ChainSummary, rest: Bytes)
    requires |summary.currentOperators| < 0x1_0000_0000
    ensures summary.Encoded(rest) == summary.Encoding() + rest
  {
    assert [] + rest == rest;
    StakeKeepsRest();
    ManyAppend(EncodeStake, summary.currentOperators, [], rest);
    Append3(ToLittleEndian(summary.currentEpochIndex, 4), ToLittleEndian(summary.currentTotalStake, 16),
            EncodeCompact(|summary.currentOperators|), EncodeMany(EncodeStake, summary.currentOperators, []), rest);
  }

  /** Decoding gives the listed stakes and leaves exactly what follows the operators. */
  lemma {:induction false} SummaryRoundTrip(summary: ChainSummary, rest: Bytes)
    requires |summary.currentOperators| < 0x1_0000_0000
    ensures ParseSummary(summary.Encoding() + rest) == Parsed(Inserted(summary.currentOperators), rest)
  {
    SummaryEncoded(summary, rest);
    var s := summary.Encoded(rest);
    var entries := EncodeMany(EncodeStake, summary.currentOperators, rest);
    var listed := EncodeCompact(|summary.currentOperators|) + entries;
    PutAt(s, 0, summary.currentEpochIndex, 4, Put(summary.currentTotalStake, 16, listed));
    PutAt(s, 4, summary.currentTotalStake, 16, listed);
    CompactRoundTrip(|summary.currentOperators|, entries);
    StakeReadsBack();
    ManyRoundTrip(ParseStake, EncodeStake, summary.currentOperators, rest);
  }

  /** A summary as the chain holds it decodes to the map that holds exactly the listed stakes. */
  lemma {:induction false} ValidSummaryDecodes(summary: ChainSummary, rest: Bytes, id: U64, amount: U128)
    requires summary.Valid()
    ensures ParseSummary(summary.Encoding() + rest).Parsed? && ParseSummary(summary.Encoding() + rest).rest == rest
    ensures var stakes := ParseSummary(summary.Encoding() + rest).value;
            id in stakes && stakes[id] == amount <==> Stake(id, amount) in summary.currentOperators
  {
    SummaryRoundTrip(summary, rest);
    InsertedHoldsEntries(summary.currentOperators, id, amount);
  }

  /** Whatever is accepted begins with an encoding, though its entries may be in any order or repeat keys. */
  lemma {:induction false} SummaryAcceptsEncodings(s: Bytes) returns (summary: ChainSummary)
    requires ParseSummary(s).Parsed?
    ensures |summary.currentOperators| < 0x1_0000_0000
    ensures ParseSummary(s).value == Inserted(summary.currentOperators)
    ensures s == summary.Encoding() + ParseSummary(s).rest
  {
    PutRead(s, 0, 4);
    PutRead(s, 4, 16);
    assert s[0..] == s;
    var length := ParseCompact(s[20..]);
    CompactIsCanonical(s[20..]);
    StakeAcceptsEncodings();
    ManyAccepts(ParseStake, EncodeStake, length.value, length.rest);
    summary := ChainSummary(At(s, 0, 4), At(s, 4, 16), ParseMany(ParseStake, length.value, length.rest).value);
    SummaryEncoded(summary, ParseSummary(s).rest);
  }

  lemma {:induction false} SummaryExtends(s: Bytes, t: Bytes)
    requires ParseSummary(s).Parsed?
    ensures ParseSummary(s + t) == Parsed(ParseSummary(s).value, ParseSummary(s).rest + t)
  {
    var summary := SummaryAcceptsEncodings(s);
    SummaryRoundTrip(summary, ParseSummary(s).rest + t);
    Assoc(summary.Encoding(), ParseSummary(s).rest, t);
  }

  lemma {:induction false} SummaryNeedsAll(s: Bytes, k: nat)
    requires k < |s| && ParseSummary(s).Parsed? && ParseSummary(s).rest == []
    ensures ParseSummary(s[..k]).Invalid?
  {
    assert s[..k] + s[k..] == s;
    if ParseSummary(s[..k]).Parsed? {
      SummaryExtends(s[..k], s[k..]);
    }
  }

  /** No strict prefix of the decoded part is accepted. */
  lemma {:induction false} SummaryPrefixRejected(summary: ChainSummary, k: nat)
    requires |summary.currentOperators| < 0x1_0000_0000 && k < |summary.Encoding()|
    ensures ParseSummary(summary.Encoding()[..k]).Invalid?
  {
    assert summary.Encoding() + [] == summary.Encoding();
    SummaryRoundTrip(summary, []);
    SummaryNeedsAll(summary.Encoding(), k);
  }

  method DecodeStake(input: Input) returns (r: Result<Stake, DecodeError>)
    modifies input
    ensures Agrees(r, input.rest, ParseStake(old(input.rest)))
  {
    ghost var s := input.rest;
    var operatorId := input.ReadUint(8);
    if operatorId.Err? { return Err(operatorId.error); }
    var amount := input.ReadUint(16);
    if amount.Err? { return Err(amount.error); }
    AtTail(s, 8, 0, 16);
    r := Ok(Stake(operatorId.value, amount.value));
  }

  /** The entries read so far have been inserted. */
  ghost predicate ReadSoFar(entries: Bytes, i: nat, rest: Bytes, operators: map<U64, U128>) {
    var read := ParseMany(ParseStake, i, entries);
    read.Parsed? && read.rest == rest && Inserted(read.value) == operators
  }

  lemma ReadOneMore(entries: Bytes, i: nat, rest: Bytes, operators: map<U64, U128>)
    requires ReadSoFar(entries, i, rest, operators) && ParseStake(rest).Parsed?
    ensures var stake := ParseStake(rest).value;
            ReadSoFar(entries, i + 1, ParseStake(rest).rest, operators[stake.operatorId := stake.amount])
  {
    var before, stake := ParseMany(ParseStake, i, entries).value, ParseStake(rest).value;
    assert (before + [stake])[..|before|] == before;
  }

  lemma ReadFails(entries: Bytes, i: nat, n: nat, rest: Bytes, operators: map<U64, U128>)
    requires ReadSoFar(entries, i, rest, operators) && ParseStake(rest).Invalid? && i < n
    ensures ParseMany(ParseStake, n, entries) == Invalid(ParseStake(rest).error)
  {
    FailedEntryFailsAll(ParseStake, i + 1, n, entries);
  }

  /** The loop over the map's entries: a later one overwrites an earlier one of the same operator. */
  method DecodeOperators(input: Input, len: nat) returns (r: Result<map<U64, U128>, DecodeError>)
    modifies input
    ensures match ParseMany(ParseStake, len, old(input.rest))
            case Invalid(error) => r == Err(error)
            case Parsed(stakes, rest) => r == Ok(Inserted(stakes)) && input.rest == rest
  {
    ghost var entries := input.rest;
    var currentOperators: map<U64, U128> := map[];
    for i := 0 to len
      invariant ReadSoFar(entries, i, input.rest, currentOperators)
    {
      ghost var rest := input.rest;
      var stake := DecodeStake(input);
      if stake.Err? {
        ReadFails(entries, i, len, rest, currentOperators);
        return Err(stake.error);
      }
      ReadOneMore(entries, i, rest, currentOperators);
      currentOperators := currentOperators[stake.value.operatorId := stake.value.amount];
    }
    r := Ok(currentOperators);
  }

  method DecodeSummary(input: Input) returns (r: Result<map<U64, U128>, DecodeError>)
    modifies input
    ensures Agrees(r, input.rest, ParseSummary(old(input.rest)))
  {
    ghost var s := input.rest;
    var currentEpochIndex := input.ReadUint(4);
    if currentEpochIndex.Err? { return Err(currentEpochIndex.error); }
    var currentTotalStake := input.ReadUint(16);
    if currentTotalStake.Err? { return Err(currentTotalStake.error); }
    assert input.rest == s[20..];
    var len := input.DecodeCompact();
    if len.Err? { return Err(len.error); }
    r := DecodeOperators(input, len.value);
  }
}
