/**
 Connecting: loads the header cache from the subscription's first canonical block and the headers
 below it, runs a session on the rest of the subscription, and reconnects when it ends.
 */
module Loading {
  import opened Chain
  import opened Follower
  import opened HeaderCache
  import opened Messages
  import opened Node
  import opened Outcomes

  /** The node's canonical chain up to `tip` is the path to it. */
  ghost predicate CanonicalUpTo(tree: Headers, node: Node, tip: Hash)
    requires IsTree(tree) && tip in tree
  {
    forall n | 0 <= n <= tree[tip].number && n in node.canonical :: node.canonical[n] == Path(tree, tip)[n]
  }

  /** An announced block that its node calls canonical. */
  ghost predicate CanonicalItem(item: Item) {
    item.Announced? && item.node.GetBlockHash(item.header.number) == Ok(item.header.hash)
  }

  /** An announced block where its node names another canonical one. */
  ghost predicate ForkItem(item: Item) {
    && item.Announced? && item.node.GetBlockHash(item.header.number).Ok?
    && item.node.GetBlockHash(item.header.number).value != item.header.hash
  }

  /** Item `k` is canonical and only fork blocks come before it. */
  ghost predicate IsFirstCanonical(sub: seq<Item>, k: nat) {
    k < |sub| && CanonicalItem(sub[k]) && forall item | item in sub[..k] :: ForkItem(item)
  }

  lemma NoneBeforeTheLast(sub: seq<Item>, i: nat)
    requires i < |sub| && (forall item | item in sub[..i] :: ForkItem(item))
    requires !ForkItem(sub[i]) && !CanonicalItem(sub[i])
    ensures forall k: nat :: !IsFirstCanonical(sub, k)
  {
    forall k: nat
      ensures !IsFirstCanonical(sub, k)
    {
      if k < i {
        InPrefix(sub, k, i);
      } else if i < k < |sub| {
        InPrefix(sub, i, k);
      }
    }
  }

  /** Skips fork blocks until the first canonical one; `taken` items have been taken. */
  method FirstCanonical(sub: seq<Item>) returns (r: Result<Header, Error>, taken: nat)
    ensures r.Err? ==> Reconnects(r.error) && forall k: nat :: !IsFirstCanonical(sub, k)
    ensures r.Ok? ==> taken > 0 && IsFirstCanonical(sub, taken - 1) && r.value == sub[taken - 1].header
  {
    for i := 0 to |sub|
      invariant forall item | item in sub[..i] :: ForkItem(item)
    {
      assert sub[..i + 1] == sub[..i] + [sub[i]];
      if sub[i].Broken? {
        NoneBeforeTheLast(sub, i);
        return Err(Rpc), i + 1;
      }
      var item := sub[i];
      var canonical := item.node.GetBlockHash(item.header.number);
      if canonical.Err? {
        NoneBeforeTheLast(sub, i);
        return Err(canonical.error), i + 1;
      }
      if canonical.value == item.header.hash {
        return Ok(item.header), i + 1;
      }
    }
    forall k: nat
      ensures !IsFirstCanonical(sub, k)
    {
      if k < |sub| {
        assert sub[k] in sub[..|sub|];
      }
    }
    r, taken := Err(SubscriptionClosed), |sub|;
  }

  lemma InPrefix(sub: seq<Item>, j: nat, k: nat)
    requires j < k <= |sub|
    ensures sub[j] in sub[..k]
  {
    assert sub[j] == sub[..k][j];
  }

  lemma FirstCanonicalIsUnique(sub: seq<Item>, j: nat, k: nat)
    requires IsFirstCanonical(sub, j) && IsFirstCanonical(sub, k)
    ensures j == k
  {
    if j < k {
      InPrefix(sub, j, k);
    } else if k < j {
      InPrefix(sub, k, j);
    }
  }

  /** The node names a canonical block at the height and serves its header. */
  ghost predicate Readable(loader: Node, n: nat) {
    loader.GetBlockHash(n).Ok? && loader.GetHeader(loader.GetBlockHash(n).value).Ok?
  }

  function StartOf(top: nat): nat {
    SaturatingSub(top, CACHE_HEADER_DEPTH)
  }

  /** Loading succeeds with item `k`: it is the first canonical one, and the node serves all that is loaded. */
  ghost predicate Loads(sub: seq<Item>, loader: Node, k: nat) {
    && IsFirstCanonical(sub, k)
    && loader.GetHeader(sub[k].header.hash).Ok?
    && forall n: nat | n <= sub[k].header.number <= n + 100 :: Readable(loader, n)
  }

  ghost function CanonicalHashes(loader: Node, start: nat, top: nat): set<Hash> {
    set n | start <= n <= top && n in loader.canonical :: loader.canonical[n]
  }

  /** The cached headers once the canonical ones numbered `start` to `top` have been added. */
  ghost function Loaded(tree: Headers, known: Headers, loader: Node, start: nat, top: nat): Headers {
    map h | h in known.Keys + CanonicalHashes(loader, start, top) && h in tree :: tree[h]
  }

  /** True headers, one per number from `start`, that the node's canonical chain names. */
  ghost predicate CanonicalFrom(tree: Headers, loader: Node, start: nat, headers: seq<Header>) {
    forall k | 0 <= k < |headers| ::
      && headers[k].hash in tree && tree[headers[k].hash] == headers[k]
      && start + k in loader.canonical && loader.canonical[start + k] == headers[k].hash
  }

  /** The canonical headers numbered `start` to `top`, in order; all or nothing. */
  method ReadCanonicalHeaders(loader: Node, ghost tree: Headers, start: nat, top: nat)
    returns (r: Result<seq<Header>, Error>)
    requires IsTree(tree) && start <= top && Truthful(tree, loader.headers)
    ensures r.Ok? <==> forall n | start <= n <= top :: Readable(loader, n)
    ensures r.Err? ==> Reconnects(r.error)
    ensures r.Ok? ==> |r.value| == top - start + 1 && CanonicalFrom(tree, loader, start, r.value)
  {
    var headers: seq<Header> := [];
    for n := start to top + 1
      invariant |headers| == n - start
      invariant CanonicalFrom(tree, loader, start, headers)
      invariant forall k | start <= k < n :: Readable(loader, k)
    {
      var hash := loader.GetBlockHash(n);
      if hash.Err? {
        assert !Readable(loader, n);
        return Err(hash.error);
      }
      var header := loader.GetHeader(hash.value);
      if header.Err? {
        assert !Readable(loader, n);
        return Err(header.error);
      }
      assert Readable(loader, n);
      assert Linked(tree, hash.value);
      headers := headers + [header.value];
    }
    r := Ok(headers);
  }

  function HashesOf(headers: seq<Header>): set<Hash> {
    set header | header in headers :: header.hash
  }

  /** All of these are headers of the tree. */
  ghost predicate TrueHeaders(tree: Headers, headers: seq<Header>) {
    forall header | header in headers :: header.hash in tree && tree[header.hash] == header
  }

  method AddTrueHeader(cache: HeadersMetadataCache, ghost tree: Headers, header: Header)
    requires cache.Valid() && Truthful(tree, cache.blockHeaderData)
    requires header.hash in tree && tree[header.hash] == header
    modifies cache
    ensures cache.Valid() && Truthful(tree, cache.blockHeaderData)
    ensures cache.blockHeaderData.Keys == old(cache.blockHeaderData).Keys + {header.hash}
  {
    var _ := cache.AddHeader(header);
  }

  method AddHeaders(cache: HeadersMetadataCache, ghost tree: Headers, headers: seq<Header>)
    requires cache.Valid() && Truthful(tree, cache.blockHeaderData)
    requires TrueHeaders(tree, headers)
    modifies cache
    ensures cache.Valid() && Truthful(tree, cache.blockHeaderData)
    ensures cache.blockHeaderData.Keys == old(cache.blockHeaderData).Keys + HashesOf(headers)
  {
    ghost var before := cache.blockHeaderData.Keys;
    for n := 0 to |headers|
      invariant cache.Valid() && Truthful(tree, cache.blockHeaderData)
      invariant cache.blockHeaderData.Keys == before + HashesOf(headers[..n])
    {
      OneMoreHash(before, headers, n);
      assert headers[n] in headers;
      AddTrueHeader(cache, tree, headers[n]);
    }
    assert headers[..|headers|] == headers;
  }

  lemma OneMoreHash(before: set<Hash>, headers: seq<Header>, n: nat)
    requires n < |headers|
    ensures before + HashesOf(headers[..n + 1]) == before + HashesOf(headers[..n]) + {headers[n].hash}
  {
    assert headers[..n + 1] == headers[..n] + [headers[n]];
  }

  lemma LoadedHashes(tree: Headers, loader: Node, start: nat, top: nat, headers: seq<Header>)
    requires start <= top && |headers| == top - start + 1 && CanonicalFrom(tree, loader, start, headers)
    ensures HashesOf(headers) == CanonicalHashes(loader, start, top)
  {
    forall h | h in CanonicalHashes(loader, start, top)
      ensures h in HashesOf(headers)
    {
      var n :| start <= n <= top && n in loader.canonical && loader.canonical[n] == h;
      assert headers[n - start] in headers;
    }
    forall header | header in headers
      ensures header.hash in CanonicalHashes(loader, start, top)
    {
      var k :| 0 <= k < |headers| && headers[k] == header;
      assert start + k in loader.canonical;
    }
  }

  lemma AddedAreLoaded(
    tree: Headers, before: Headers, after: Headers, loader: Node, start: nat, top: nat, headers: seq<Header>)
    requires Truthful(tree, before) && Truthful(tree, after) && start <= top && |headers| == top - start + 1
    requires CanonicalFrom(tree, loader, start, headers)
    requires after.Keys == before.Keys + HashesOf(headers)
    ensures after == Loaded(tree, before, loader, start, top)
    ensures forall k | 0 <= k < |headers| :: headers[k].hash in after
  {
    LoadedHashes(tree, loader, start, top, headers);
    assert after.Keys == Loaded(tree, before, loader, start, top).Keys;
    forall k | 0 <= k < |headers|
      ensures headers[k].hash in after
    {
      assert headers[k] in headers;
    }
  }

  /**
   Besides what was cached, exactly the headers are that the node's canonical chain names for the numbers
   from 100 below `top` up to it.
   */
  ghost predicate CachesHundred(tree: Headers, before: Headers, loader: Node, top: nat, after: Headers) {
    && Truthful(tree, after)
    && forall h :: h in after <==>
         h in before || exists n: nat | n in loader.canonical && n <= top <= n + 100 :: loader.canonical[n] == h
  }

  lemma LoadedIsHundred(tree: Headers, before: Headers, loader: Node, top: nat, headers: seq<Header>)
    requires Truthful(tree, before) && |headers| == top - StartOf(top) + 1
    requires CanonicalFrom(tree, loader, StartOf(top), headers)
    ensures CachesHundred(tree, before, loader, top, Loaded(tree, before, loader, StartOf(top), top))
  {
    var loaded := Loaded(tree, before, loader, StartOf(top), top);
    forall n: nat | n in loader.canonical && n <= top <= n + 100
      ensures loader.canonical[n] in loaded
    {
      assert headers[n - StartOf(top)].hash == loader.canonical[n];
    }
  }

  lemma LoadedPathIsRetained(
    tree: Headers, loader: Node, start: nat, headers: seq<Header>, latest: Hash, known: Headers)
    requires IsTree(tree) && latest in tree && start <= tree[latest].number == start + |headers| - 1
    requires CanonicalFrom(tree, loader, start, headers) && CanonicalUpTo(tree, loader, latest)
    requires forall k | 0 <= k < |headers| :: headers[k].hash in known
    ensures Retained(tree, known, latest, start - 1)
    ensures latest in known
  {
    forall k: nat | start <= k <= tree[latest].number
      ensures Path(tree, latest)[k] in known
    {
      assert headers[k - start].hash == loader.canonical[k];
    }
    assert Path(tree, latest)[tree[latest].number] == latest;
  }

  /**
   Loads the cache. It succeeds exactly when there is a first canonical block and `loader`, the node
   while the headers are read, serves it and the canonical headers from `CACHE_HEADER_DEPTH` below it;
   it then caches exactly those besides what it had, and else nothing. When the node's chain still is
   the path to that block, the path is cached from the start number on.
   */
  method LoadHeaderMetadataCache(sub: seq<Item>, loader: Node, cache: HeadersMetadataCache, ghost tree: Headers)
    returns (r: Result<HashAndNumber, Error>, taken: nat)
    requires IsTree(tree) && cache.Valid() && Truthful(tree, cache.blockHeaderData)
    requires Truthful(tree, loader.headers) && TrueItems(tree, sub)
    modifies cache
    ensures cache.Valid() && Truthful(tree, cache.blockHeaderData)
    ensures r.Ok? <==> exists k: nat :: Loads(sub, loader, k)
    ensures r.Err? ==> Reconnects(r.error) && cache.blockHeaderData == old(cache.blockHeaderData)
    ensures r.Ok? ==>
              && taken > 0 && Loads(sub, loader, taken - 1) && r.value == Entry(sub[taken - 1].header)
              && cache.blockHeaderData
                 == Loaded(tree, old(cache.blockHeaderData), loader, StartOf(r.value.number), r.value.number)
              && r.value.hash in tree && tree[r.value.hash] == sub[taken - 1].header
    ensures r.Ok? ==> CachesHundred(tree, old(cache.blockHeaderData), loader, r.value.number, cache.blockHeaderData)
    ensures r.Ok? && CanonicalUpTo(tree, loader, r.value.hash) ==>
              && Retained(tree, cache.blockHeaderData, r.value.hash, StartOf(r.value.number) - 1)
              && r.value.hash in cache.blockHeaderData
  {
    ghost var before := cache.blockHeaderData;
    var latest;
    latest, taken := FirstCanonical(sub);
    if latest.Err? { return Err(latest.error), taken; }
    var latestHash := latest.value.hash;
    assert TrueItem(tree, sub[taken - 1]);
    forall k: nat | IsFirstCanonical(sub, k)
      ensures k == taken - 1
    {
      FirstCanonicalIsUnique(sub, k, taken - 1);
    }
    var latestHead := loader.GetHeader(latestHash);
    if latestHead.Err? { return Err(latestHead.error), taken; }
    assert Linked(tree, latestHash) && latestHead.value == latest.value;

    var top := latestHead.value.number;
    var start := StartOf(top);
    var headers := ReadCanonicalHeaders(loader, tree, start, top);
    if headers.Err? { return Err(headers.error), taken; }
    assert Loads(sub, loader, taken - 1);
    AddHeaders(cache, tree, headers.value);
    AddedAreLoaded(tree, before, cache.blockHeaderData, loader, start, top, headers.value);
    LoadedIsHundred(tree, before, loader, top, headers.value);
    if CanonicalUpTo(tree, loader, latestHash) {
      LoadedPathIsRetained(tree, loader, start, headers.value, latestHash, cache.blockHeaderData);
    }
    r := Ok(HashAndNumber(top, latestHash));
  }

  /**
   A stable load that starts beyond the number after all that was cached leaves a gap: whatever is
   pruned later, all that was cached before stays.
   */
  lemma {:induction false} LateLoadKeepsOldHeaders(tree: Headers, known: Headers, loader: Node, tip: Hash, n: nat)
    requires IsTree(tree) && Truthful(tree, known) && tip in tree && CanonicalUpTo(tree, loader, tip)
    requires StartOf(tree[tip].number) > 0 && StartOf(tree[tip].number) - 1 <= n
    requires forall h | h in known :: known[h].number < StartOf(tree[tip].number) - 1
    ensures known.Keys <= Pruned(Loaded(tree, known, loader, StartOf(tree[tip].number), tree[tip].number), n).Keys
  {
    var start := StartOf(tree[tip].number);
    var loaded := Loaded(tree, known, loader, start, tree[tip].number);
    forall h | h in loaded
      ensures loaded[h].number != start - 1
    {
      if h !in known {
        var k :| start <= k <= tree[tip].number && k in loader.canonical && loader.canonical[k] == h;
        PathAt(tree, tip, k);
      }
    }
    forall h | h in known
      ensures h in Pruned(loaded, n)
    {
      assert loaded[h].number < start - 1;
      GapKeepsHeader(loaded, n, start - 1, h);
    }
  }

  /** One connection: what its subscription delivers, and the node while the cache is loaded. */
  datatype Connection = Connection(items: seq<Item>, loader: Node)

  ghost predicate TrueConnection(tree: Headers, connection: Connection) {
    Truthful(tree, connection.loader.headers) && TrueItems(tree, connection.items)
  }

  /**
   What one connection came to: nothing when loading failed, else how many items loading took, what
   was sent after that, and the last best block.
   */
  datatype Log = NotLoaded | Listened(taken: nat, messages: seq<BlocksExt>, best: Hash)

  /** The view a session starts with, when loading succeeds with item `k`. */
  ghost function LoadedView(tree: Headers, known: Headers, connection: Connection, k: nat): View
    requires IsTree(tree) && TrueConnection(tree, connection)
    requires k < |connection.items| && connection.items[k].Announced?
    ensures IsView(tree, LoadedView(tree, known, connection, k))
  {
    var top := connection.items[k].header.number;
    assert TrueItem(tree, connection.items[k]);
    View(Loaded(tree, known, connection.loader, StartOf(top), top), connection.items[k].header.hash)
  }

  lemma LaterItemsAreTrue(tree: Headers, items: seq<Item>, k: nat)
    requires TrueItems(tree, items) && k <= |items|
    ensures TrueItems(tree, items[k..])
  {
  }

  /**
   From a view, the items lead to these messages, to this best block and, unless the session stopped
   at an item it could not import, to exactly these cached headers.
   */
  ghost predicate CameFrom(
    tree: Headers, start: View, items: seq<Item>, messages: seq<BlocksExt>, best: Hash, after: Headers)
    requires IsView(tree, start) && TrueItems(tree, items)
  {
    var course := CourseOf(tree, start, items);
    && messages == course.messages
    && best == course.view.best
    && course.view.known.Keys <= after.Keys
    && (!course.stopped ==> after == course.view.known)
  }

  /** The log is that of this connection, when `known` was cached before it, and `after` is cached after it. */
  ghost predicate IsLogOf(tree: Headers, known: Headers, connection: Connection, log: Log, after: Headers)
    requires IsTree(tree) && TrueConnection(tree, connection)
  {
    match log
    case NotLoaded =>
      after == known && forall k: nat :: !Loads(connection.items, connection.loader, k)
    case Listened(taken, messages, best) =>
      && taken > 0 && Loads(connection.items, connection.loader, taken - 1)
      && var start := LoadedView(tree, known, connection, taken - 1);
         LaterItemsAreTrue(tree, connection.items, taken);
         CameFrom(tree, start, connection.items[taken..], messages, best, after)
  }

  /** The session after loading: what its items call for, and what it retains. */
  method RunSession(
    cache: HeadersMetadataCache, ghost tree: Headers, ghost view: View, start: HashAndNumber, ghost line: int,
    items: seq<Item>)
    returns (messages: seq<BlocksExt>, best: Hash, error: Error)
    requires IsView(tree, view) && cache.Valid() && view == View(cache.blockHeaderData, start.hash)
    requires start == Entry(tree[start.hash])
    requires Retained(tree, cache.blockHeaderData, start.hash, line)
    requires TrueItems(tree, items)
    modifies cache
    ensures cache.Valid() && Truthful(tree, cache.blockHeaderData)
    ensures CameFrom(tree, view, items, messages, best, cache.blockHeaderData)
    ensures best in tree && Retained(tree, cache.blockHeaderData, best, LineAfter(line, messages))
    ensures Reconnects(error)
  {
    var session := new Session(tree, cache, start, line);
    error := session.ListenForBlocks(items);
    messages, best := session.sent, session.currentBestBlock.hash;
  }

  lemma MakesLog(
    tree: Headers, known: Headers, connection: Connection, taken: nat, view: View, messages: seq<BlocksExt>,
    best: Hash, after: Headers)
    requires IsTree(tree) && TrueConnection(tree, connection)
    requires 0 < taken && Loads(connection.items, connection.loader, taken - 1)
    requires TrueItems(tree, connection.items[taken..])
    requires view == LoadedView(tree, known, connection, taken - 1)
    requires CameFrom(tree, view, connection.items[taken..], messages, best, after)
    ensures IsLogOf(tree, known, connection, Listened(taken, messages, best), after)
  {
  }

  /** The node's chain was stable while the cache was loaded with item `k`. */
  ghost predicate StableLoad(tree: Headers, connection: Connection, k: nat)
    requires IsTree(tree)
  {
    && k < |connection.items| && connection.items[k].Announced? && connection.items[k].header.hash in tree
    && CanonicalUpTo(tree, connection.loader, connection.items[k].header.hash)
  }

  /** After a stable load the block the session starts from is cached. */
  lemma StableLoadCachesStart(tree: Headers, known: Headers, connection: Connection, k: nat)
    requires IsTree(tree) && TrueConnection(tree, connection)
    requires Loads(connection.items, connection.loader, k) && StableLoad(tree, connection, k)
    ensures var v := LoadedView(tree, known, connection, k); v.best in v.known
  {
    var header := connection.items[k].header;
    assert TrueItem(tree, connection.items[k]);
    assert Readable(connection.loader, header.number);
    assert Path(tree, header.hash)[header.number] == header.hash;
    assert connection.loader.canonical[header.number] == header.hash;
  }

  /**
   What a connection sent replays from the path of the block it loaded to the path of its last best
   block; and after a stable load, or once the best block has moved, the best block is cached.
   */
  lemma LogReplays(tree: Headers, known: Headers, connection: Connection, log: Log, after: Headers)
    requires IsTree(tree) && TrueConnection(tree, connection)
    requires IsLogOf(tree, known, connection, log, after) && log.Listened?
    ensures var start := connection.items[log.taken - 1].header.hash;
            && start in tree && log.best in tree
            && Followed(tree, start, log.messages, log.best)
            && ReplayAll(Path(tree, start), log.messages) == Path(tree, log.best)
    ensures StableLoad(tree, connection, log.taken - 1) || log.messages != [] ==> log.best in after
  {
    var start := LoadedView(tree, known, connection, log.taken - 1);
    LaterItemsAreTrue(tree, connection.items, log.taken);
    CourseFollows(tree, start, connection.items[log.taken..]);
    ReplayHoldsBestPath(tree, start.best, log.messages);
    BestStaysCached(tree, start, connection.items[log.taken..]);
    if StableLoad(tree, connection, log.taken - 1) {
      StableLoadCachesStart(tree, known, connection, log.taken - 1);
    }
  }

  /** The line a session starts with: below the first header loaded, or, after an unstable load, at the top. */
  ghost function LineAtStart(tree: Headers, connection: Connection, k: nat): int
    requires IsTree(tree) && k < |connection.items| && connection.items[k].Announced?
  {
    var top := connection.items[k].header.number;
    if !StableLoad(tree, connection, k) then top else if top < 100 then -1 else top - 101
  }

  /** Loading, and the line above which it has cached the path, if the node's chain was stable. */
  method Connect(cache: HeadersMetadataCache, ghost tree: Headers, connection: Connection)
    returns (start: Result<HashAndNumber, Error>, taken: nat, ghost view: View, ghost line: int)
    requires IsTree(tree) && cache.Valid() && Truthful(tree, cache.blockHeaderData)
    requires TrueConnection(tree, connection)
    modifies cache
    ensures cache.Valid() && Truthful(tree, cache.blockHeaderData)
    ensures start.Err? ==>
              && Reconnects(start.error) && cache.blockHeaderData == old(cache.blockHeaderData)
              && forall k: nat :: !Loads(connection.items, connection.loader, k)
    ensures start.Ok? ==>
              && 0 < taken && Loads(connection.items, connection.loader, taken - 1)
              && TrueItems(tree, connection.items[taken..])
              && view == LoadedView(tree, old(cache.blockHeaderData), connection, taken - 1)
              && view == View(cache.blockHeaderData, start.value.hash)
              && start.value.hash in tree && start.value == Entry(tree[start.value.hash])
              && Retained(tree, cache.blockHeaderData, start.value.hash, line)
              && line == LineAtStart(tree, connection, taken - 1)
  {
    start, taken := LoadHeaderMetadataCache(connection.items, connection.loader, cache, tree);
    line, view := 0, View(cache.blockHeaderData, 0);
    if start.Ok? {
      view := View(cache.blockHeaderData, start.value.hash);
      LaterItemsAreTrue(tree, connection.items, taken);
      line := LineAtStart(tree, connection, taken - 1);
    }
  }

  ghost predicate AllTrueConnections(tree: Headers, connections: seq<Connection>) {
    forall connection | connection in connections :: TrueConnection(tree, connection)
  }

  /**
   One connection: it sends exactly the messages its items call for from the block that loading
   started at. The path to its last best block stays cached above the line, which the messages have
   raised from the one the session started with.
   */
  method RunConnection(cache: HeadersMetadataCache, ghost tree: Headers, connection: Connection)
    returns (log: Log, error: Error)
    requires IsTree(tree) && cache.Valid() && Truthful(tree, cache.blockHeaderData)
    requires TrueConnection(tree, connection)
    modifies cache
    ensures cache.Valid() && Truthful(tree, cache.blockHeaderData)
    ensures IsLogOf(tree, old(cache.blockHeaderData), connection, log, cache.blockHeaderData) && Reconnects(error)
    ensures log.Listened? ==>
              && log.best in tree
              && Retained(tree, cache.blockHeaderData, log.best,
                          LineAfter(LineAtStart(tree, connection, log.taken - 1), log.messages))
  {
    ghost var before := cache.blockHeaderData;
    var start, taken;
    ghost var view, line;
    start, taken, view, line := Connect(cache, tree, connection);
    if start.Err? {
      return NotLoaded, start.error;
    }
    var messages, best;
    messages, best, error := RunSession(cache, tree, view, start.value, line, connection.items[taken..]);
    MakesLog(tree, before, connection, taken, view, messages, best, cache.blockHeaderData);
    log := Listened(taken, messages, best);
  }

  /**
   The reconnecting loop, over finitely many connections that share one cache. It would return any error
   it does not reconnect after, but there is none: every connection is run, each from the headers that the
   one before left cached. `caches` are the headers cached before the first connection and after each.
   */
  method ListenForAllBlocks(cache: HeadersMetadataCache, ghost tree: Headers, connections: seq<Connection>)
    returns (returned: Option<Error>, logs: seq<Log>, ghost caches: seq<Headers>)
    requires IsTree(tree) && cache.Valid() && Truthful(tree, cache.blockHeaderData)
    requires AllTrueConnections(tree, connections)
    modifies cache
    ensures cache.Valid() && Truthful(tree, cache.blockHeaderData)
    ensures returned.None? && |logs| == |connections| && |caches| == |connections| + 1
    ensures forall k | 0 <= k < |logs| ::
              TrueConnection(tree, connections[k]) && IsLogOf(tree, caches[k], connections[k], logs[k], caches[k + 1])
    ensures caches[0] == old(cache.blockHeaderData) && caches[|connections|] == cache.blockHeaderData
  {
    returned, logs, caches := None, [], [cache.blockHeaderData];
    var i := 0;
    while i < |connections| && returned.None?
      invariant cache.Valid() && Truthful(tree, cache.blockHeaderData)
      invariant returned.None? && |logs| == i <= |connections| && |caches| == i + 1
      invariant forall k | 0 <= k < |logs| ::
                  && TrueConnection(tree, connections[k])
                  && IsLogOf(tree, caches[k], connections[k], logs[k], caches[k + 1])
      invariant caches[0] == old(cache.blockHeaderData) && caches[i] == cache.blockHeaderData
    {
      assert connections[i] in connections;
      var log, error := RunConnection(cache, tree, connections[i]);
      logs, caches := logs + [log], caches + [cache.blockHeaderData];
      if !Reconnects(error) {
        returned := Some(error);
      }
      i := i + 1;
    }
  }
}
