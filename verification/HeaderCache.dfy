/** The follower's header cache: headers by hash, and the hashes known at each number. */
module HeaderCache {
  import opened Chain
  import opened Node
  import opened Outcomes

  /** `k` belongs to the unbroken run of `numbers` that ends at `top`. */
  ghost predicate InRun(numbers: set<nat>, top: nat, k: nat) {
    k <= top && forall j | k <= j <= top :: j in numbers
  }

  ghost predicate HasAll(numbers: set<nat>, low: int, top: int) {
    forall k: nat | low < k <= top :: k in numbers
  }

  /** The numbers of the cached headers. */
  ghost function Numbers(headers: Headers): set<nat> {
    set h | h in headers :: headers[h].number
  }

  /** `headers` without those in the unbroken run of its numbers that ends at `top`. */
  ghost function Pruned(headers: Headers, top: nat): Headers {
    map h | h in headers && !InRun(Numbers(headers), top, headers[h].number) :: headers[h]
  }

  /**
   Pruning is documented to remove every header up to `top`. It does exactly when no number is missing
   between a cached one and `top`.
   */
  lemma PrunesAllIffUnbroken(headers: Headers, top: nat)
    ensures (forall h | h in Pruned(headers, top) :: headers[h].number > top)
            <==> (forall h, j | h in headers && headers[h].number <= j <= top :: j in Numbers(headers))
  {
    if h, j :| h in headers && headers[h].number <= j <= top && j !in Numbers(headers) {
      assert !InRun(Numbers(headers), top, headers[h].number);
      assert h in Pruned(headers, top);
    }
  }

  /** A header below a number that is missing outlasts pruning, and the number is still missing. */
  lemma GapKeepsHeader(headers: Headers, top: nat, gap: nat, h: Hash)
    requires h in headers && headers[h].number < gap <= top && gap !in Numbers(headers)
    ensures h in Pruned(headers, top) && gap !in Numbers(Pruned(headers, top))
  {
    assert !InRun(Numbers(headers), top, headers[h].number);
  }

  /** `headers` without those numbered above `low` and up to `top`. */
  ghost function Outside(headers: Headers, low: int, top: int): Headers {
    map h | h in headers && !(low < headers[h].number <= top) :: headers[h]
  }

  lemma OutsideStep(headers: Headers, low: int, top: int)
    requires low <= top
    ensures Outside(Outside(headers, low, top), low - 1, low) == Outside(headers, low - 1, top)
    ensures forall k: nat :: k in Numbers(Outside(headers, low, top)) <==> k in Numbers(headers) && !(low < k <= top)
  {
    forall k: nat | k in Numbers(headers) && !(low < k <= top)
      ensures k in Numbers(Outside(headers, low, top))
    {
      var h :| h in headers && headers[h].number == k;
      assert h in Outside(headers, low, top);
    }
  }

  /** Once the number below the removed ones is absent, the removed ones are the whole run. */
  lemma OutsideIsPruned(headers: Headers, low: int, top: nat)
    requires -1 <= low <= top
    requires HasAll(Numbers(headers), low, top)
    requires low < 0 || low !in Numbers(headers)
    ensures Outside(headers, low, top) == Pruned(headers, top)
  {
    assert forall k: nat :: InRun(Numbers(headers), top, k) <==> low < k <= top;
  }

  class HeadersMetadataCache {
    var blockHeaderData: Headers
    var blockNumberHashes: map<nat, set<Hash>>

    /** The two maps agree, and the number index has no empty entry. */
    ghost predicate Valid()
      reads this
    {
      && (forall h | h in blockHeaderData :: blockHeaderData[h].hash == h)
      && (forall h | h in blockHeaderData ::
            && blockHeaderData[h].number in blockNumberHashes
            && h in blockNumberHashes[blockHeaderData[h].number])
      && (forall n | n in blockNumberHashes ::
            && blockNumberHashes[n] != {}
            && forall h | h in blockNumberHashes[n] :: h in blockHeaderData && blockHeaderData[h].number == n)
    }

    constructor ()
      ensures Valid() && blockHeaderData == map[]
    {
      blockHeaderData := map[];
      blockNumberHashes := map[];
    }

    /** A header already cached under its hash is the same header: hashes do not collide. */
    method AddHeader(header: Header) returns (hash: Hash)
      requires Valid()
      requires header.hash in blockHeaderData ==> blockHeaderData[header.hash] == header
      modifies this
      ensures Valid()
      ensures hash == header.hash
      ensures blockHeaderData == old(blockHeaderData)[header.hash := header]
    {
      hash := header.hash;
      blockHeaderData := blockHeaderData[hash := header];
      var hashes := if header.number in blockNumberHashes then blockNumberHashes[header.number] else {};
      blockNumberHashes := blockNumberHashes[header.number := hashes + {hash}];
    }

    /** One round of the pruning loop: drops a number and the headers indexed under it. */
    method RemoveNumber(number: nat)
      requires Valid() && number in blockNumberHashes
      modifies this
      ensures Valid()
      ensures blockNumberHashes == old(blockNumberHashes) - {number}
      ensures blockHeaderData == Outside(old(blockHeaderData), number - 1, number)
    {
      blockHeaderData := blockHeaderData - blockNumberHashes[number];
      blockNumberHashes := blockNumberHashes - {number};
    }

    /**
     Removes exactly the headers numbered in the unbroken run of cached numbers that ends at
     `number`, also when the run reaches down to 0.
     */
    method RemoveHeaderUntil(number: nat)
      requires Valid()
      modifies this
      ensures Valid()
      ensures blockHeaderData == Pruned(old(blockHeaderData), number)
    {
      ghost var before := blockHeaderData;
      var toRemove := number;
      ghost var next: int := number;
      assert Outside(before, next, number) == before;
      NumbersAreIndexed();
      while toRemove in blockNumberHashes
        invariant -1 <= next <= number && toRemove == if next < 0 then 0 else next
        invariant Valid() && blockNumberHashes.Keys == Numbers(blockHeaderData)
        invariant HasAll(Numbers(before), next, number)
        invariant blockHeaderData == Outside(before, next, number)
        decreases next
      {
        OutsideStep(before, next, number);
        assert HasAll(Numbers(before), next - 1, number);
        RemoveNumber(toRemove);
        NumbersAreIndexed();
        next := next - 1;
        toRemove := if toRemove == 0 then 0 else toRemove - 1;
      }
      OutsideStep(before, next, number);
      OutsideIsPruned(before, next, number);
    }

    /** `header_metadata` and `get_header` share this lookup. */
    method GetHeader(hash: Hash) returns (r: Result<Header, Error>)
      ensures r == if hash in blockHeaderData then Ok(blockHeaderData[hash])
                   else Err(MissingBlockHashFromCache(hash))
    {
      if hash in blockHeaderData {
        r := Ok(blockHeaderData[hash]);
      } else {
        r := Err(MissingBlockHashFromCache(hash));
      }
    }

    /** The number index has an entry exactly for the numbers of cached headers. */
    lemma NumbersAreIndexed()
      requires Valid()
      ensures blockNumberHashes.Keys == Numbers(blockHeaderData)
    {
      forall n | n in blockNumberHashes
        ensures n in Numbers(blockHeaderData)
      {
        var h :| h in blockNumberHashes[n];
        assert h in blockHeaderData;
      }
    }
  }

  lemma PrunedAboveGap()
    ensures Pruned(map[1 := Header(1, 0, 1), 3 := Header(3, 2, 3)], 3) == map[1 := Header(1, 0, 1)]
  {
    var headers := map[1 := Header(1, 0, 1), 3 := Header(3, 2, 3)];
    GapKeepsHeader(headers, 3, 2, 1);
    assert headers[3].number in Numbers(headers);
    assert InRun(Numbers(headers), 3, 3);
  }

  /** Blocks 1 and 3 are cached and 2 is not: pruning up to 3 leaves block 1. */
  method PruneAboveGap() returns (cache: HeadersMetadataCache)
    ensures cache.Valid() && cache.blockHeaderData == map[1 := Header(1, 0, 1)]
  {
    cache := new HeadersMetadataCache();
    var _ := cache.AddHeader(Header(1, 0, 1));
    var _ := cache.AddHeader(Header(3, 2, 3));
    PrunedAboveGap();
    cache.RemoveHeaderUntil(3);
  }
}
