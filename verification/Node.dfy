/** The node behind the RPC client, as the values its calls return, and the client's errors. */
module Node {
  import opened Chain
  import opened Outcomes

  datatype Error =
    | Rpc
    | SubscriptionClosed
    | MissingBlockHeaderForNumber(number: nat)
    | MissingBlockHeaderForHash(hash: Hash)
    | MissingBlockHashFromCache(hash: Hash)

  /**
   What the node answers at one moment: headers by hash, and canonical hashes by number. Calls for
   a hash or a number in the `lost` sets fail in transport.
   */
  datatype Node = Node(headers: Headers, canonical: map<nat, Hash>, lostHashes: set<Hash>, lostNumbers: set<nat>) {

    /** `chain_get_header`, with an absent header turned into an error as every caller does. */
    function GetHeader(h: Hash): Result<Header, Error> {
      if h in lostHashes then Err(Rpc)
      else if h in headers then Ok(headers[h])
      else Err(MissingBlockHeaderForHash(h))
    }

    /** `chain_get_block_hash`, with an absent hash turned into an error as every caller does. */
    function GetBlockHash(n: nat): Result<Hash, Error> {
      if n in lostNumbers then Err(Rpc)
      else if n in canonical then Ok(canonical[n])
      else Err(MissingBlockHeaderForNumber(n))
    }
  }
}
