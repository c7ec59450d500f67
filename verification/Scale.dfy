/**
 SCALE: little-endian fixed-width integers, the compact length encoding for 32-bit values, and the
 input cursor that decoders read from. The standard is the SCALE Codec section of the Polkadot
 Protocol Specification.
 */
module Scale {
  import opened Outcomes

  type Byte = b: nat | b < 256

  type Bytes = seq<Byte>

  datatype DecodeError = NotEnoughData | OutOfRange | UnknownVariant(n: nat)

  /** What decoding the front of an input comes to: a value and what is left, or an error. */
  datatype Parsed<+T> = Parsed(value: T, rest: Bytes) | Invalid(error: DecodeError)

  function Pow256(width: nat): (p: nat)
    ensures p > 0
  {
    if width == 0 then 1 else 256 * Pow256(width - 1)
  }

  type U8 = n: nat | n < Pow256(1)
  type U32 = n: nat | n < Pow256(4)
  type U64 = n: nat | n < Pow256(8)
  type U128 = n: nat | n < Pow256(16)

  function FromLittleEndian(bytes: Bytes): (n: nat)
    ensures n < Pow256(|bytes|)
  {
    if bytes == [] then 0 else bytes[0] + 256 * FromLittleEndian(bytes[1..])
  }

  function ToLittleEndian(n: nat, width: nat): (bytes: Bytes)
    requires n < Pow256(width)
    ensures |bytes| == width
  {
    if width == 0 then [] else [n % 256] + ToLittleEndian(n / 256, width - 1)
  }

  /** Encoding then decoding gives the number. */
  lemma {:induction false} LittleEndianRoundTrip(n: nat, width: nat)
    requires n < Pow256(width)
    ensures FromLittleEndian(ToLittleEndian(n, width)) == n
  {
    if width > 0 {
      LittleEndianRoundTrip(n / 256, width - 1);
      assert ToLittleEndian(n, width)[1..] == ToLittleEndian(n / 256, width - 1);
    }
  }

  /** Decoding then encoding gives the bytes. */
  lemma {:induction false} LittleEndianIsOnto(bytes: Bytes)
    ensures ToLittleEndian(FromLittleEndian(bytes), |bytes|) == bytes
  {
    if bytes != [] {
      LittleEndianIsOnto(bytes[1..]);
      LowByte(bytes[0], FromLittleEndian(bytes[1..]));
    }
  }

  lemma LowByte(low: Byte, high: nat)
    ensures (low + 256 * high) % 256 == low && (low + 256 * high) / 256 == high
  {
  }

  lemma Widths()
    ensures Pow256(1) == 256 && Pow256(2) == 0x1_0000 && Pow256(4) == 0x1_0000_0000
  {
    assert Pow256(2) == 256 * Pow256(1) && Pow256(3) == 256 * Pow256(2);
  }

  /** The number in the `width` bytes at an offset. */
  function At(s: Bytes, offset: nat, width: nat): nat
    requires offset + width <= |s|
  {
    FromLittleEndian(s[offset..offset + width])
  }

  /** A number's encoding in front of other bytes. */
  function Put(n: nat, width: nat, rest: Bytes): (s: Bytes)
    requires n < Pow256(width)
    ensures |s| == width + |rest|
  {
    ToLittleEndian(n, width) + rest
  }

  lemma {:induction false} ReadPut(n: nat, width: nat, rest: Bytes)
    requires n < Pow256(width)
    ensures At(Put(n, width, rest), 0, width) == n && Put(n, width, rest)[width..] == rest
  {
    LittleEndianRoundTrip(n, width);
    assert Put(n, width, rest)[0..width] == ToLittleEndian(n, width);
  }

  lemma PutAppend(n: nat, width: nat, rest: Bytes, t: Bytes)
    requires n < Pow256(width)
    ensures Put(n, width, rest) + t == Put(n, width, rest + t)
  {
  }

  /** Reading a number where its encoding stands. */
  lemma {:induction false} PutAt(s: Bytes, offset: nat, n: nat, width: nat, rest: Bytes)
    requires offset <= |s| && n < Pow256(width) && s[offset..] == Put(n, width, rest)
    ensures offset + width <= |s| && At(s, offset, width) == n && s[offset + width..] == rest
  {
    ReadPut(n, width, rest);
    AtTail(s, offset, 0, width);
  }

  lemma Append3(a: Bytes, b: Bytes, c: Bytes, rest: Bytes, t: Bytes)
    ensures (a + (b + (c + rest))) + t == a + (b + (c + (rest + t)))
  {
    Assoc(c, rest, t);
    Assoc(b, c + rest, t);
    Assoc(a, b + (c + rest), t);
  }

  lemma Assoc(a: Bytes, b: Bytes, c: Bytes)
    ensures (a + b) + c == a + (b + c)
  {
  }

  /** Every input that is long enough starts with the encoding of what is read from it. */
  lemma {:induction false} PutRead(s: Bytes, offset: nat, width: nat)
    requires offset + width <= |s|
    ensures s[offset..] == Put(At(s, offset, width), width, s[offset + width..])
  {
    LittleEndianIsOnto(s[offset..offset + width]);
    assert s[offset..] == s[offset..offset + width] + s[offset + width..];
  }

  lemma AtTail(s: Bytes, skip: nat, offset: nat, width: nat)
    requires skip + offset + width <= |s|
    ensures At(s[skip..], offset, width) == At(s, skip + offset, width)
    ensures s[skip..][offset + width..] == s[skip + offset + width..]
  {
    assert s[skip..][offset..offset + width] == s[skip + offset..skip + offset + width];
  }

  // Compact lengths

  const MAX_ONE_BYTE: nat := 63
  const MAX_TWO_BYTES: nat := 16383
  const MAX_FOUR_BYTES: nat := 1073741823

  function InRange(value: nat, above: nat, rest: Bytes): Parsed<nat> {
    if value > above then Parsed(value, rest) else Invalid(OutOfRange)
  }

  /** The two low bits of the first byte are the mode; a value in a longer mode than it needs is rejected. */
  function ParseCompact(s: Bytes): Parsed<nat> {
    if s == [] then Invalid(NotEnoughData)
    else
      match s[0] % 4
      case 0 => Parsed(s[0] / 4, s[1..])
      case 1 => if |s| < 2 then Invalid(NotEnoughData) else InRange(At(s, 0, 2) / 4, MAX_ONE_BYTE, s[2..])
      case 2 => if |s| < 4 then Invalid(NotEnoughData) else InRange(At(s, 0, 4) / 4, MAX_TWO_BYTES, s[4..])
      case _ =>
        if s[0] != 3 then Invalid(OutOfRange)
        else if |s| < 5 then Invalid(NotEnoughData)
        else InRange(At(s, 1, 4), MAX_FOUR_BYTES, s[5..])
  }

  function EncodeCompact(n: nat): Bytes
    requires n < 0x1_0000_0000
  {
    Widths();
    if n <= MAX_ONE_BYTE then [4 * n]
    else if n <= MAX_TWO_BYTES then ToLittleEndian(4 * n + 1, 2)
    else if n <= MAX_FOUR_BYTES then ToLittleEndian(4 * n + 2, 4)
    else [3] + ToLittleEndian(n, 4)
  }

  lemma FirstByteMode(s: Bytes, width: nat)
    requires 0 < width <= |s|
    ensures At(s, 0, width) % 4 == s[0] % 4
  {
    assert s[0..width][0] == s[0];
  }

  /** A two- or four-byte value carries the mode in the low bits of its first byte. */
  lemma {:induction false} ShiftedReadBack(n: nat, mode: nat, width: nat, rest: Bytes)
    requires 0 < width && mode < 4 && 4 * n + mode < Pow256(width)
    ensures var s := ToLittleEndian(4 * n + mode, width) + rest;
            s[0] % 4 == mode && At(s, 0, width) / 4 == n && s[width..] == rest
  {
    var x := 4 * n + mode;
    Unshifted(n, mode);
    ReadPut(x, width, rest);
    FirstByteMode(Put(x, width, rest), width);
  }

  lemma Unshifted(n: nat, mode: nat)
    requires mode < 4
    ensures (4 * n + mode) / 4 == n && (4 * n + mode) % 4 == mode
  {
  }

  lemma LongReadBack(n: nat, rest: Bytes)
    requires n < Pow256(4)
    ensures var s := [3] + ToLittleEndian(n, 4) + rest;
            At(s, 1, 4) == n && s[5..] == rest
  {
    var s := [3] + ToLittleEndian(n, 4) + rest;
    assert s[1..] == Put(n, 4, rest);
    ReadPut(n, 4, rest);
    AtTail(s, 1, 0, 4);
  }

  lemma {:induction false} ShiftedRoundTrip(n: nat, mode: nat, width: nat, rest: Bytes)
    requires (mode == 1 && width == 2 && MAX_ONE_BYTE < n <= MAX_TWO_BYTES)
          || (mode == 2 && width == 4 && MAX_TWO_BYTES < n <= MAX_FOUR_BYTES)
    ensures 4 * n + mode < Pow256(width)
    ensures ParseCompact(Put(4 * n + mode, width, rest)) == Parsed(n, rest)
  {
    Widths();
    ShiftedReadBack(n, mode, width, rest);
  }

  /** Decoding a length and anything after it gives the length and leaves what follows. */
  lemma {:induction false} CompactRoundTrip(n: nat, rest: Bytes)
    requires n < 0x1_0000_0000
    ensures ParseCompact(EncodeCompact(n) + rest) == Parsed(n, rest)
  {
    Widths();
    if n <= MAX_ONE_BYTE {
      assert ([4 * n] + rest)[1..] == rest;
    } else if n <= MAX_TWO_BYTES {
      ShiftedRoundTrip(n, 1, 2, rest);
    } else if n <= MAX_FOUR_BYTES {
      ShiftedRoundTrip(n, 2, 4, rest);
    } else {
      LongReadBack(n, rest);
    }
  }

  /** Only the canonical encoding is accepted. */
  lemma {:induction false} CompactIsCanonical(s: Bytes)
    requires ParseCompact(s).Parsed?
    ensures ParseCompact(s).value < 0x1_0000_0000
    ensures s == EncodeCompact(ParseCompact(s).value) + ParseCompact(s).rest
  {
    Widths();
    match s[0] % 4
    case 0 =>
      assert s == [s[0]] + s[1..];
    case 1 =>
      FirstByteMode(s, 2);
      LittleEndianIsOnto(s[0..2]);
      assert s == s[0..2] + s[2..];
    case 2 =>
      FirstByteMode(s, 4);
      LittleEndianIsOnto(s[0..4]);
      assert s == s[0..4] + s[4..];
    case _ =>
      LittleEndianIsOnto(s[1..5]);
      assert s == [s[0]] + s[1..5] + s[5..];
  }

  // Lists of entries

  /** `n` entries in turn, each by `parse`. */
  function ParseMany<T>(parse: Bytes -> Parsed<T>, n: nat, s: Bytes): Parsed<seq<T>> {
    if n == 0 then Parsed([], s)
    else
      match ParseMany(parse, n - 1, s)
      case Invalid(error) => Invalid(error)
      case Parsed(entries, rest) =>
        match parse(rest)
        case Invalid(error) => Invalid(error)
        case Parsed(entry, left) => Parsed(entries + [entry], left)
  }

  function EncodeMany<T>(encode: (T, Bytes) -> Bytes, entries: seq<T>, rest: Bytes): Bytes {
    if entries == [] then rest
    else EncodeMany(encode, entries[..|entries| - 1], encode(entries[|entries| - 1], rest))
  }

  ghost predicate ReadsBack<T(!new)>(parse: Bytes -> Parsed<T>, encode: (T, Bytes) -> Bytes) {
    forall entry, rest :: parse(encode(entry, rest)) == Parsed(entry, rest)
  }

  ghost predicate AcceptsEncodings<T(!new)>(parse: Bytes -> Parsed<T>, encode: (T, Bytes) -> Bytes) {
    forall s | parse(s).Parsed? :: s == encode(parse(s).value, parse(s).rest)
  }

  ghost predicate KeepsRest<T(!new)>(encode: (T, Bytes) -> Bytes) {
    forall entry, rest, t {:trigger encode(entry, rest + t)} :: encode(entry, rest) + t == encode(entry, rest + t)
  }

  lemma {:induction false} ManyRoundTrip<T(!new)>(
    parse: Bytes -> Parsed<T>, encode: (T, Bytes) -> Bytes, entries: seq<T>, rest: Bytes)
    requires ReadsBack(parse, encode)
    ensures ParseMany(parse, |entries|, EncodeMany(encode, entries, rest)) == Parsed(entries, rest)
  {
    if entries != [] {
      var last := entries[|entries| - 1];
      ManyRoundTrip(parse, encode, entries[..|entries| - 1], encode(last, rest));
      assert parse(encode(last, rest)) == Parsed(last, rest);
      assert |entries[..|entries| - 1]| == |entries| - 1 && entries[..|entries| - 1] + [last] == entries;
    }
  }

  lemma {:induction false} ManyAccepts<T(!new)>(
    parse: Bytes -> Parsed<T>, encode: (T, Bytes) -> Bytes, n: nat, s: Bytes)
    requires AcceptsEncodings(parse, encode) && ParseMany(parse, n, s).Parsed?
    ensures |ParseMany(parse, n, s).value| == n
    ensures s == EncodeMany(encode, ParseMany(parse, n, s).value, ParseMany(parse, n, s).rest)
  {
    if n > 0 {
      ManyAccepts(parse, encode, n - 1, s);
      var before := ParseMany(parse, n - 1, s);
      var entry := parse(before.rest);
      assert (before.value + [entry.value])[..n - 1] == before.value;
    }
  }

  lemma {:induction false} ManyAppend<T(!new)>(encode: (T, Bytes) -> Bytes, entries: seq<T>, rest: Bytes, t: Bytes)
    requires KeepsRest(encode)
    ensures EncodeMany(encode, entries, rest) + t == EncodeMany(encode, entries, rest + t)
  {
    if entries != [] {
      var last := entries[|entries| - 1];
      ManyAppend(encode, entries[..|entries| - 1], encode(last, rest), t);
      assert encode(last, rest) + t == encode(last, rest + t);
    }
  }

  /** A failure after some entries is the failure of the whole list. */
  lemma {:induction false} FailedEntryFailsAll<T>(parse: Bytes -> Parsed<T>, k: nat, n: nat, s: Bytes)
    requires k <= n && ParseMany(parse, k, s).Invalid?
    ensures ParseMany(parse, n, s) == ParseMany(parse, k, s)
  {
    if k < n {
      FailedEntryFailsAll(parse, k, n - 1, s);
    }
  }

  // The input cursor

  /** A decoder's result and what it leaves of the input are what parsing the input gives. */
  ghost predicate Agrees<T>(r: Result<T, DecodeError>, rest: Bytes, parsed: Parsed<T>) {
    match parsed
    case Parsed(value, left) => r == Ok(value) && rest == left
    case Invalid(error) => r == Err(error)
  }

  class Input {
    var rest: Bytes

    constructor (bytes: Bytes)
      ensures rest == bytes
    {
      rest := bytes;
    }

    method ReadBytes(width: nat) returns (r: Result<Bytes, DecodeError>)
      modifies this
      ensures if |old(rest)| < width then r == Err(NotEnoughData)
              else r == Ok(old(rest)[..width]) && rest == old(rest)[width..]
    {
      if |rest| < width {
        return Err(NotEnoughData);
      }
      r := Ok(rest[..width]);
      rest := rest[width..];
    }

    /** `u8`, `u32`, `u64` and `u128` decode: the next `width` bytes, least significant first. */
    method ReadUint(width: nat) returns (r: Result<nat, DecodeError>)
      modifies this
      ensures if |old(rest)| < width then r == Err(NotEnoughData)
              else r == Ok(At(old(rest), 0, width)) && rest == old(rest)[width..]
    {
      var bytes := ReadBytes(width);
      if bytes.Err? {
        return Err(bytes.error);
      }
      var n: nat := 0;
      for i := width downto 0
        invariant i <= width && n == FromLittleEndian(bytes.value[i..])
      {
        assert bytes.value[i..][1..] == bytes.value[i + 1..];
        n := bytes.value[i] + 256 * n;
      }
      assert bytes.value[0..] == bytes.value;
      r := Ok(n);
    }

    method DecodeCompact() returns (r: Result<nat, DecodeError>)
      modifies this
      ensures Agrees(r, rest, ParseCompact(old(rest)))
    {
      ghost var s := rest;
      var prefix := ReadUint(1);
      if prefix.Err? {
        return Err(prefix.error);
      }
      assert prefix.value == s[0] by { assert s[0..1][0] == s[0]; }
      match prefix.value % 4
      case 0 =>
        r := Ok(prefix.value / 4);
      case 1 =>
        var high := ReadUint(1);
        if high.Err? { return Err(high.error); }
        AtSplit(s, 2);
        r := Above((prefix.value + 256 * high.value) / 4, MAX_ONE_BYTE);
      case 2 =>
        var high := ReadUint(3);
        if high.Err? { return Err(high.error); }
        AtSplit(s, 4);
        r := Above((prefix.value + 256 * high.value) / 4, MAX_TWO_BYTES);
      case _ =>
        if prefix.value != 3 { return Err(OutOfRange); }
        var x := ReadUint(4);
        if x.Err? { return Err(x.error); }
        assert s[1..][0..4] == s[1..5];
        r := Above(x.value, MAX_FOUR_BYTES);
    }
  }

  function Above(value: nat, bound: nat): Result<nat, DecodeError> {
    if value > bound then Ok(value) else Err(OutOfRange)
  }

  lemma AtSplit(s: Bytes, width: nat)
    requires 0 < width <= |s|
    ensures At(s, 0, width) == s[0] + 256 * At(s[1..], 0, width - 1)
  {
    assert s[0..width][0] == s[0];
    assert s[0..width][1..] == s[1..][0..width - 1];
  }
}
