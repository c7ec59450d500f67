/**
 The chain follower: loads the header cache, imports announced blocks one by one, moves its best
 block along the route to each canonical one, broadcasts the move and prunes the cache.
 */
module Follower {
  import opened Chain
  import opened HeaderCache
  import opened Messages
  import opened Node
  import opened Outcomes
  import opened Routes

  const CACHE_HEADER_DEPTH: nat := 100

  /** One item of the block subscription, with the node's answers while it is handled. */
  datatype Item = Announced(header: Header, node: Node) | Broken

  function SaturatingSub(a: nat, b: nat): nat {
    if a < b then 0 else a - b
  }

  function Max(a: int, b: int): int {
    if a < b then b else a
  }

  /** An item announces a true header and comes with a node that serves true headers. */
  ghost predicate TrueItem(tree: Headers, item: Item) {
    item.Announced? ==>
      && item.header.hash in tree && tree[item.header.hash] == item.header
      && Truthful(tree, item.node.headers)
  }

  /** Every block of the path to `tip` numbered above `line` is cached. */
  ghost predicate Retained(tree: Headers, known: Headers, tip: Hash, line: int)
    requires IsTree(tree) && tip in tree
  {
    forall i: nat | line < i <= tree[tip].number :: Path(tree, tip)[i] in known
  }

  /** The blocks of the path less than 100 below `tip`, and above `line` and the genesis block, are cached. */
  ghost predicate HoldsHundred(tree: Headers, known: Headers, tip: Hash, line: int)
    requires IsTree(tree) && tip in tree
  {
    forall i: nat | 0 < i <= tree[tip].number < i + 100 && line < i :: Path(tree, tip)[i] in known
  }

  lemma HundredHeld(tree: Headers, known: Headers, tip: Hash, line: int, raised: int)
    requires IsTree(tree) && tip in tree && Retained(tree, known, tip, raised)
    requires raised <= line || raised <= 0 || raised <= tree[tip].number - 100
    ensures HoldsHundred(tree, known, tip, line)
  {
  }

  /** The message of one import: none for a fork block, and none when nothing is enacted. */
  ghost function MessageOf(tree: Headers, best: Hash, header: Header, node: Node): Option<BlocksExt>
    requires IsTree(tree) && best in tree && header.hash in tree
  {
    if node.GetBlockHash(header.number) != Ok(header.hash) then None
    else MessageFor(tree, best, header.hash)
  }

  /** The node calls the imported block canonical, and it is not already on the best path. */
  ghost predicate BestMoves(tree: Headers, best: Hash, header: Header, node: Node)
    requires IsTree(tree) && best in tree
  {
    node.GetBlockHash(header.number) == Ok(header.hash) && !IsAncestor(tree, header.hash, best)
  }

  /** The import left what was sent and the best block alone, or took both from the old path to the new one. */
  ghost predicate MovesIfCanonical(
    tree: Headers, best: HashAndNumber, sent: seq<BlocksExt>, header: Header, node: Node,
    best': HashAndNumber, sent': seq<BlocksExt>)
    requires IsTree(tree) && best.hash in tree && header.hash in tree
  {
    if BestMoves(tree, best.hash, header, node) then
      && best' == HashAndNumber(header.number, header.hash)
      && |sent'| == |sent| + 1 && sent'[..|sent|] == sent
      && Replay(Path(tree, best.hash), sent'[|sent|]) == Path(tree, header.hash)
    else best' == best && sent' == sent
  }

  lemma {:induction false} MovesAsMessaged(
    tree: Headers, best: HashAndNumber, sent: seq<BlocksExt>, header: Header, node: Node,
    best': HashAndNumber, sent': seq<BlocksExt>)
    requires IsTree(tree) && best.hash in tree && header.hash in tree
    requires match MessageOf(tree, best.hash, header, node)
             case None => sent' == sent && best' == best
             case Some(message) => sent' == sent + [message] && best' == Entry(header)
    ensures MovesIfCanonical(tree, best, sent, header, node, best', sent')
  {
    MessageUnlessOnPath(tree, best.hash, header.hash);
    if MessageOf(tree, best.hash, header, node).Some? {
      ReplayMovesPath(tree, best.hash, header.hash);
    }
  }

  /**
   A route that stays above the line and whose fork is cached is served by the cache alone.
   */
  lemma {:induction false} RetainedRouteNeedsNoFetch(
    tree: Headers, known: Headers, best: Hash, line: int, to: Hash, node: Node)
    requires IsTree(tree) && best in tree && to in tree
    requires Retained(tree, known, best, line)
    requires RouteOf(tree, best, to).CommonBlock().number > line
    requires forall b | b in RouteOf(tree, best, to).Enacted() :: b.hash in known
    ensures RouteHashes(tree, best, to) <= known.Keys
    ensures Unserved(tree, known, node, best, to) == {}
  {
    forall h | h in RouteHashes(tree, best, to)
      ensures h in known
    {
      RouteHashOnPath(tree, best, to, h);
      RouteParts(tree, best, to);
      var k := tree[h].number;
      if k > tree[best].number || Path(tree, best)[k] != h {
        EnactedAt(tree, best, to, k);
      }
    }
  }

  /** A block of the new path that is not on the old one is enacted. */
  lemma {:induction false} EnactedAt(tree: Headers, from: Hash, to: Hash, k: nat)
    requires IsTree(tree) && from in tree && to in tree && k <= tree[to].number
    requires k > tree[from].number || Path(tree, from)[k] != Path(tree, to)[k]
    ensures HashAndNumber(k, Path(tree, to)[k]) in RouteOf(tree, from, to).Enacted()
  {
    RouteParts(tree, from, to);
    var c := CommonLength(Path(tree, from), Path(tree, to));
    if k < c {
      MeetBelowCommonLength(tree, from, to, k);
      assert false;
    }
    assert Rising(Path(tree, to), c)[k - c] == HashAndNumber(k, Path(tree, to)[k]);
  }

  /** The enacted blocks are on the route, and the last of them is the new best block. */
  lemma {:induction false} EnactedOnRoute(tree: Headers, from: Hash, to: Hash)
    requires IsTree(tree) && from in tree && to in tree
    ensures var enacted := RouteOf(tree, from, to).Enacted();
            && (forall i | 0 <= i < |enacted| :: enacted[i].hash in RouteHashes(tree, from, to))
            && (enacted != [] ==> tree[to].number > 0 && enacted[|enacted| - 1] == HashAndNumber(tree[to].number, to))
  {
    RouteParts(tree, from, to);
    var enacted := RouteOf(tree, from, to).Enacted();
    forall i | 0 <= i < |enacted|
      ensures enacted[i].hash in RouteHashes(tree, from, to)
    {
      PathBlockOnRoute(tree, from, to, enacted[i].number);
    }
  }

  /** After the route was walked, the new best path is cached down to the line. */
  lemma {:induction false} RetainedMoves(tree: Headers, known: Headers, from: Hash, to: Hash, line: int)
    requires IsTree(tree) && from in tree && to in tree
    requires Retained(tree, known, from, line)
    requires RouteHashes(tree, from, to) <= known.Keys
    ensures Retained(tree, known, to, line)
  {
    forall i: nat | line < i <= tree[to].number
      ensures Path(tree, to)[i] in known
    {
      if CommonLength(Path(tree, from), Path(tree, to)) <= i + 1 {
        PathBlockOnRoute(tree, from, to, i);
      } else {
        MeetBelowCommonLength(tree, from, to, i);
      }
    }
  }

  /** The cache holds true headers, and the path to the best block above the line. */
  ghost predicate Tracks(tree: Headers, known: Headers, best: HashAndNumber, line: int) {
    && IsTree(tree)
    && Truthful(tree, known)
    && best.hash in tree
    && best == Entry(tree[best.hash])
    && Retained(tree, known, best.hash, line)
  }

  lemma {:induction false} TracksMoves(
    tree: Headers, known: Headers, best: HashAndNumber, line: int, to: Hash, enacted: seq<HashAndNumber>)
    requires Tracks(tree, known, best, line) && to in tree
    requires enacted == RouteOf(tree, best.hash, to).Enacted() && enacted != []
    requires RouteHashes(tree, best.hash, to) <= known.Keys
    ensures tree[to].number > 0
    ensures enacted[|enacted| - 1] == Entry(tree[to])
    ensures Tracks(tree, known, enacted[|enacted| - 1], line)
  {
    assert Linked(tree, to);
    EnactedOnRoute(tree, best.hash, to);
    RetainedMoves(tree, known, best.hash, to, line);
  }

  /** Pruning below the best block raises the line to the pruned number and keeps the best block. */
  lemma {:induction false} TracksPruned(tree: Headers, known: Headers, best: HashAndNumber, line: int, top: nat)
    requires Tracks(tree, known, best, line) && top < best.number
    ensures Tracks(tree, Pruned(known, top), best, Max(line, top))
  {
    forall i: nat | Max(line, top) < i <= best.number
      ensures Path(tree, best.hash)[i] in Pruned(known, top)
    {
      PathAt(tree, best.hash, i);
    }
  }

  // What a session does, as a function of what it sees

  /** What the follower knows: the cached headers and the best block. */
  datatype View = View(known: Headers, best: Hash)

  ghost predicate IsView(tree: Headers, v: View) {
    IsTree(tree) && Truthful(tree, v.known) && v.best in tree
  }

  /**
   An import succeeds exactly when the node names the canonical block at its height and, if that is
   the imported one, serves every block of the route to it that is not cached.
   */
  ghost predicate ImportSucceeds(tree: Headers, v: View, header: Header, node: Node)
    requires IsView(tree, v) && header.hash in tree
  {
    var canonical := node.GetBlockHash(header.number);
    && canonical.Ok?
    && (canonical.value == header.hash ==>
          Unserved(tree, v.known[header.hash := header], node, v.best, header.hash) == {})
  }

  /**
   Whether an import succeeded is as the node answers: a fork block is no failure, and a canonical one needs
   every block of the route that is neither cached nor the imported one to be served.
   */
  ghost predicate SucceedsAsServed(
    tree: Headers, known: Headers, best: Hash, header: Header, node: Node, ok: bool)
    requires IsTree(tree) && best in tree && header.hash in tree
  {
    match node.GetBlockHash(header.number)
    case Err(_) => !ok
    case Ok(hash) =>
      ok <==> hash != header.hash || forall h | h in RouteHashes(tree, best, header.hash) ::
                                       h in known || h == header.hash || node.GetHeader(h).Ok?
  }

  lemma {:induction false} SuccessIsService(tree: Headers, v: View, header: Header, node: Node)
    requires IsView(tree, v) && header.hash in tree
    ensures SucceedsAsServed(tree, v.known, v.best, header, node, ImportSucceeds(tree, v, header, node))
  {
    var unserved := Unserved(tree, v.known[header.hash := header], node, v.best, header.hash);
    forall h | h in RouteHashes(tree, v.best, header.hash)
      ensures h in unserved <==> !(h in v.known || h == header.hash || node.GetHeader(h).Ok?)
    {
    }
  }

  /** The cached headers once the route to a block has been walked. */
  ghost function Routed(tree: Headers, v: View, to: Hash): Headers
    requires IsView(tree, v) && to in tree
  {
    map h | h in v.known.Keys + RouteHashes(tree, v.best, to) && h in tree :: tree[h]
  }

  /** What the follower knows once it has followed a canonical block. */
  ghost function MovedTo(tree: Headers, v: View, header: Header): (after: View)
    requires IsView(tree, v) && header.hash in tree && tree[header.hash] == header
    ensures IsView(tree, after)
  {
    if MessageFor(tree, v.best, header.hash).None? then View(Routed(tree, v, header.hash), v.best)
    else View(Pruned(Routed(tree, v, header.hash), SaturatingSub(header.number, CACHE_HEADER_DEPTH)), header.hash)
  }

  /** What the follower knows after an import that succeeds. */
  ghost function Imported(tree: Headers, v: View, header: Header, node: Node): (after: View)
    requires IsView(tree, v) && header.hash in tree && tree[header.hash] == header
    ensures IsView(tree, after)
  {
    var added := View(v.known[header.hash := header], v.best);
    if node.GetBlockHash(header.number) != Ok(header.hash) then added else MovedTo(tree, added, header)
  }

  lemma RoutedKeys(tree: Headers, v: View, to: Hash, known: Headers)
    requires IsView(tree, v) && to in tree && Truthful(tree, known)
    requires known.Keys == v.known.Keys + RouteHashes(tree, v.best, to)
    ensures known == Routed(tree, v, to)
  {
    assert known.Keys == Routed(tree, v, to).Keys;
  }

  /** How far a session has come: its view and messages, until it stops at an item it cannot import. */
  datatype Course = Course(view: View, messages: seq<BlocksExt>, stopped: bool)

  ghost predicate TrueItems(tree: Headers, items: seq<Item>) {
    forall item | item in items :: TrueItem(tree, item)
  }

  /** The session over these items: each import's message in turn, up to the first item that fails. */
  ghost function CourseOf(tree: Headers, v: View, items: seq<Item>): (course: Course)
    requires IsView(tree, v) && TrueItems(tree, items)
    ensures IsView(tree, course.view)
  {
    if items == [] then Course(v, [], false)
    else
      var so, item := CourseOf(tree, v, items[..|items| - 1]), items[|items| - 1];
      assert TrueItem(tree, item);
      if so.stopped then so
      else if item.Broken? || !ImportSucceeds(tree, so.view, item.header, item.node) then so.(stopped := true)
      else
        var message := MessageOf(tree, so.view.best, item.header, item.node);
        Course(Imported(tree, so.view, item.header, item.node),
               if message.None? then so.messages else so.messages + [message.value], false)
  }

  lemma {:induction false} StoppedStays(tree: Headers, v: View, items: seq<Item>, k: nat)
    requires IsView(tree, v) && TrueItems(tree, items) && k <= |items|
    requires CourseOf(tree, v, items[..k]).stopped
    ensures CourseOf(tree, v, items) == CourseOf(tree, v, items[..k])
  {
    if k < |items| {
      assert items[..|items| - 1][..k] == items[..k];
      StoppedStays(tree, v, items[..|items| - 1], k);
    } else {
      assert items[..k] == items;
    }
  }

  /** The best block is cached throughout, if it is at the start, and at any rate once it has moved. */
  lemma {:induction false} BestStaysCached(tree: Headers, v: View, items: seq<Item>)
    requires IsView(tree, v) && TrueItems(tree, items)
    ensures var course := CourseOf(tree, v, items);
            v.best in v.known || course.messages != [] ==> course.view.best in course.view.known
  {
    if items != [] {
      var so, item := CourseOf(tree, v, items[..|items| - 1]), items[|items| - 1];
      BestStaysCached(tree, v, items[..|items| - 1]);
      assert TrueItem(tree, item);
      if CourseOf(tree, v, items) != so && item.Announced? && ImportSucceeds(tree, so.view, item.header, item.node)
         && MessageOf(tree, so.view.best, item.header, item.node).Some? {
        MovedBestIsCached(tree, View(so.view.known[item.header.hash := item.header], so.view.best), item.header);
      }
    }
  }

  /** The messages of a session are those of a chain of best-block moves that ends at its best block. */
  lemma {:induction false} CourseFollows(tree: Headers, v: View, items: seq<Item>)
    requires IsView(tree, v) && TrueItems(tree, items)
    ensures var course := CourseOf(tree, v, items);
            Followed(tree, v.best, course.messages, course.view.best)
  {
    if items != [] {
      var so, item := CourseOf(tree, v, items[..|items| - 1]), items[|items| - 1];
      CourseFollows(tree, v, items[..|items| - 1]);
      assert TrueItem(tree, item);
      if item.Announced? {
        FollowedStep(tree, v.best, so.messages, so.view.best, item.header, item.node);
      }
    }
  }

  /** A block that is moved to is announced, so cached, and pruning leaves it. */
  lemma MovedBestIsCached(tree: Headers, v: View, header: Header)
    requires IsView(tree, v) && header.hash in v.known && header.hash in tree && tree[header.hash] == header
    requires MessageFor(tree, v.best, header.hash).Some?
    ensures header.hash in MovedTo(tree, v, header).known
  {
    EnactedOnRoute(tree, v.best, header.hash);
  }

  /** The line after these messages: raised to what was pruned when each was sent. */
  function LineAfter(line: int, messages: seq<BlocksExt>): int {
    if messages == [] || messages[|messages| - 1].blocks == [] then line
    else
      var last := messages[|messages| - 1];
      Max(LineAfter(line, messages[..|messages| - 1]),
          SaturatingSub(last.blocks[|last.blocks| - 1].number, CACHE_HEADER_DEPTH))
  }

  /** The height is less than 100 below every block that these messages made the best one. */
  ghost predicate AtMostHundredBelow(i: nat, messages: seq<BlocksExt>) {
    forall message | message in messages && message.blocks != [] ::
      message.blocks[|message.blocks| - 1].number < i + 100
  }

  /** The line is the highest of where it was and 100 below each best block, and at least 0 once one was sent. */
  lemma {:induction false} LineIsHighest(line: int, messages: seq<BlocksExt>)
    requires forall message | message in messages :: message.blocks != []
    ensures line <= LineAfter(line, messages) && (messages != [] ==> 0 <= LineAfter(line, messages))
    ensures forall message | message in messages ::
              message.blocks[|message.blocks| - 1].number - 100 <= LineAfter(line, messages)
    ensures LineAfter(line, messages) == line || LineAfter(line, messages) == 0
            || exists message | message in messages ::
                 LineAfter(line, messages) == message.blocks[|message.blocks| - 1].number - 100
  {
    if messages != [] {
      var init, last := messages[..|messages| - 1], messages[|messages| - 1];
      assert messages == init + [last];
      assert last in messages;
      LineIsHighest(line, init);
    }
  }

  lemma {:induction false} SentHaveBlocks(tree: Headers, start: Hash, messages: seq<BlocksExt>)
    requires IsTree(tree) && FollowsFrom(tree, start, messages)
    ensures forall message | message in messages :: message.blocks != []
  {
    if messages != [] {
      var init, last := messages[..|messages| - 1], messages[|messages| - 1];
      assert messages == init + [last];
      SentHaveBlocks(tree, start, init);
      FollowsTip(tree, start, init);
      MessageHasBlocks(tree, Tip(start, init), Tip(start, messages));
    }
  }

  lemma {:induction false} MessageHasBlocks(tree: Headers, from: Hash, to: Hash)
    requires IsTree(tree) && from in tree && to in tree && MessageFor(tree, from, to).Some?
    ensures MessageFor(tree, from, to).value.blocks != []
  {
    EnactedIsChained(tree, from, to);
  }

  /** One session of `Subspace`: the cache, the best block and the channel's messages. */
  class Session {
    ghost const tree: Headers
    const headerMetadata: HeadersMetadataCache
    var currentBestBlock: HashAndNumber
    var sent: seq<BlocksExt>
    /** No block of the best path above this number has ever been pruned or left unloaded. */
    ghost var line: int

    ghost predicate Valid()
      reads this, headerMetadata
    {
      headerMetadata.Valid() && Tracks(tree, headerMetadata.blockHeaderData, currentBestBlock, line)
    }

    /** Starts from the best block and the cache that loading gave. */
    constructor (ghost tree: Headers, cache: HeadersMetadataCache, best: HashAndNumber, ghost line: int)
      requires IsTree(tree) && cache.Valid() && Truthful(tree, cache.blockHeaderData)
      requires best.hash in tree && best == Entry(tree[best.hash])
      requires Retained(tree, cache.blockHeaderData, best.hash, line)
      ensures Valid() && this.tree == tree && headerMetadata == cache
      ensures currentBestBlock == best && sent == [] && this.line == line
    {
      this.tree := tree;
      headerMetadata := cache;
      currentBestBlock := best;
      sent := [];
      this.line := line;
    }

    /** `get_block_ext` for each block, in order; fails at the first one that is not cached. */
    method GetBlockExts(enacted: seq<HashAndNumber>) returns (r: Result<seq<Header>, Error>)
      requires Valid() && AllIn(tree, enacted)
      ensures r.Ok? <==> forall i | 0 <= i < |enacted| :: enacted[i].hash in headerMetadata.blockHeaderData
      ensures r.Ok? ==> r.value == HeadersOf(tree, enacted)
    {
      var blocks: seq<Header> := [];
      for i := 0 to |enacted|
        invariant |blocks| == i
        invariant forall j | 0 <= j < i :: enacted[j].hash in headerMetadata.blockHeaderData
        invariant forall j | 0 <= j < i :: blocks[j] == tree[enacted[j].hash]
      {
        var header := headerMetadata.GetHeader(enacted[i].hash);
        if header.Err? {
          return Err(header.error);
        }
        blocks := blocks + [header.value];
      }
      assert blocks == HeadersOf(tree, enacted);
      r := Ok(blocks);
    }

    /** The message for a known route that enacts something; every enacted header has to be cached. */
    method MakeMessage(hash: Hash, treeRoute: TreeRoute) returns (message: BlocksExt)
      requires Valid() && hash in tree
      requires treeRoute == RouteOf(tree, currentBestBlock.hash, hash) && treeRoute.Enacted() != []
      requires RouteHashes(tree, currentBestBlock.hash, hash) <= headerMetadata.blockHeaderData.Keys
      ensures MessageFor(tree, currentBestBlock.hash, hash) == Some(message)
    {
      EnactedOnRoute(tree, currentBestBlock.hash, hash);
      EnactedInTree(tree, currentBestBlock.hash, hash);
      var enacted, retracted := treeRoute.Enacted(), treeRoute.Retracted();
      var blockExts := GetBlockExts(enacted);
      var maybeReorgData :=
        if retracted == [] then None
        else Some(ReorgData(enacted[..|enacted| - 1], Reversed(retracted), treeRoute.CommonBlock()));
      message := BlocksExt(blockExts.value, maybeReorgData);
    }

    /** The rest of the round once the route is known and enacts something: broadcast, move, prune. */
    method MoveBestBlock(hash: Hash, treeRoute: TreeRoute)
      requires Valid() && hash in tree
      requires treeRoute == RouteOf(tree, currentBestBlock.hash, hash) && treeRoute.Enacted() != []
      requires RouteHashes(tree, currentBestBlock.hash, hash) <= headerMetadata.blockHeaderData.Keys
      modifies this`currentBestBlock, this`sent, this`line, headerMetadata
      ensures Valid()
      ensures MessageFor(tree, old(currentBestBlock).hash, hash).Some?
      ensures sent == old(sent) + [MessageFor(tree, old(currentBestBlock).hash, hash).value]
      ensures currentBestBlock == Entry(tree[hash])
      ensures var top := if tree[hash].number < 100 then 0 else tree[hash].number - 100;
              && line == (if old(line) < top then top else old(line))
              && headerMetadata.blockHeaderData == Pruned(old(headerMetadata.blockHeaderData), top)
      ensures HoldsHundred(tree, headerMetadata.blockHeaderData, hash, old(line))
    {
      var message := MakeMessage(hash, treeRoute);
      var enacted := treeRoute.Enacted();
      TracksMoves(tree, headerMetadata.blockHeaderData, currentBestBlock, line, hash, enacted);
      ghost var before := line;
      Advance(enacted[|enacted| - 1], message);
      HundredHeld(tree, headerMetadata.blockHeaderData, hash, before, line);
    }

    /** Sends, moves, and drops what is more than `CACHE_HEADER_DEPTH` behind the new best block. */
    method Advance(best: HashAndNumber, message: BlocksExt)
      requires headerMetadata.Valid() && Tracks(tree, headerMetadata.blockHeaderData, best, line)
      requires best.number > 0
      modifies this`currentBestBlock, this`sent, this`line, headerMetadata
      ensures Valid() && currentBestBlock == best && sent == old(sent) + [message]
      ensures line == Max(old(line), SaturatingSub(best.number, CACHE_HEADER_DEPTH))
      ensures headerMetadata.blockHeaderData
              == Pruned(old(headerMetadata.blockHeaderData), SaturatingSub(best.number, CACHE_HEADER_DEPTH))
    {
      var numberToClean := SaturatingSub(best.number, CACHE_HEADER_DEPTH);
      TracksPruned(tree, headerMetadata.blockHeaderData, best, line, numberToClean);
      sent := sent + [message];
      currentBestBlock := best;
      headerMetadata.RemoveHeaderUntil(numberToClean);
      line := Max(line, numberToClean);
    }

    ghost function Now(): View
      reads this, headerMetadata
    {
      View(headerMetadata.blockHeaderData, currentBestBlock.hash)
    }

    /** Computes the route to a canonical block, and moves along it if it enacts anything. */
    method FollowCanonical(header: Header, node: Node) returns (r: Result<(), Error>)
      requires Valid() && TrueItem(tree, Announced(header, node))
      modifies this`currentBestBlock, this`sent, this`line, headerMetadata
      ensures Valid()
      ensures r.Ok? <==>
                Unserved(tree, old(headerMetadata.blockHeaderData), node, old(currentBestBlock).hash, header.hash) == {}
      ensures r.Err? ==> r.error.Rpc? || r.error.MissingBlockHeaderForHash?
      ensures r.Err? ==> sent == old(sent) && currentBestBlock == old(currentBestBlock) && line == old(line)
      ensures r.Ok? ==> Now() == MovedTo(tree, old(Now()), header)
      ensures r.Ok? ==>
                match MessageFor(tree, old(currentBestBlock).hash, header.hash)
                case None => sent == old(sent) && currentBestBlock == old(currentBestBlock) && line == old(line)
                case Some(message) =>
                  && sent == old(sent) + [message] && currentBestBlock == Entry(header)
                  && var top := if header.number < 100 then 0 else header.number - 100;
                     line == (if old(line) < top then top else old(line))
      ensures r.Err? ==> old(headerMetadata.blockHeaderData).Keys <= headerMetadata.blockHeaderData.Keys
    {
      ghost var before := Now();
      var treeRoute := RecursiveTreeRoute(headerMetadata, tree, node, currentBestBlock.hash, header.hash);
      if treeRoute.Err? {
        return Err(treeRoute.error);
      }
      RoutedKeys(tree, before, header.hash, headerMetadata.blockHeaderData);
      if treeRoute.value.Enacted() == [] {
        // Either the block already is the best one, or it is an ancestor of it.
        return Ok(());
      }
      MoveBestBlock(header.hash, treeRoute.value);
      r := Ok(());
    }

    /**
     One round of the listening loop. It fails only as the node makes it fail, and then sends nothing
     and keeps its best block. When it succeeds, the best block moves and a message is sent exactly
     when the block is canonical and something is enacted. The error is never a cache miss.
     */
    method ImportBlock(header: Header, node: Node) returns (r: Result<(), Error>)
      requires Valid() && TrueItem(tree, Announced(header, node))
      modifies this`currentBestBlock, this`sent, this`line, headerMetadata
      ensures Valid()
      ensures r.Ok? <==> ImportSucceeds(tree, old(Now()), header, node)
      ensures SucceedsAsServed(
                tree, old(headerMetadata.blockHeaderData), old(currentBestBlock).hash, header, node, r.Ok?)
      ensures r.Err? ==> r.error.Rpc? || r.error.MissingBlockHeaderForNumber? || r.error.MissingBlockHeaderForHash?
      ensures r.Err? ==> sent == old(sent) && currentBestBlock == old(currentBestBlock) && line == old(line)
      ensures r.Ok? ==> Now() == Imported(tree, old(Now()), header, node)
      ensures r.Ok? ==>
                match MessageOf(tree, old(currentBestBlock).hash, header, node)
                case None => sent == old(sent) && currentBestBlock == old(currentBestBlock) && line == old(line)
                case Some(message) =>
                  && sent == old(sent) + [message] && currentBestBlock == Entry(header)
                  && var top := if header.number < 100 then 0 else header.number - 100;
                     line == (if old(line) < top then top else old(line))
      ensures r.Ok? ==>
                MovesIfCanonical(tree, old(currentBestBlock), old(sent), header, node, currentBestBlock, sent)
      ensures r.Err? ==> old(headerMetadata.blockHeaderData).Keys <= headerMetadata.blockHeaderData.Keys
    {
      assert Linked(tree, header.hash);
      SuccessIsService(tree, Now(), header, node);
      var hash := headerMetadata.AddHeader(header);
      var canonical := node.GetBlockHash(header.number);
      if canonical.Err? {
        return Err(canonical.error);
      }
      if canonical.value != hash {
        MovesAsMessaged(tree, currentBestBlock, sent, header, node, currentBestBlock, sent);
        return Ok(());
      }

      r := FollowCanonical(header, node);
      if r.Ok? {
        MovesAsMessaged(tree, old(currentBestBlock), old(sent), header, node, currentBestBlock, sent);
      }
    }

    /**
     The listening loop over a finite part of the subscription: exactly the messages, the best block
     and, unless it stopped early, the cache that the items call for. The messages are those of a
     chain of best-block moves that ends at the current best block, so a consumer that replays them
     holds the path to it; and the cache keeps that path above the line they have raised.
     */
    method ListenForBlocks(sub: seq<Item>) returns (error: Error)
      requires Valid() && TrueItems(tree, sub)
      requires sent == []
      modifies this`currentBestBlock, this`sent, this`line, headerMetadata
      ensures Valid()
      ensures CameBy(sub, old(Now()), error)
      ensures line == LineAfter(old(line), sent)
      ensures forall i: nat | 0 < i <= currentBestBlock.number && old(line) < i && AtMostHundredBelow(i, sent) ::
                Path(tree, currentBestBlock.hash)[i] in headerMetadata.blockHeaderData
      ensures Followed(tree, old(currentBestBlock.hash), sent, currentBestBlock.hash)
      ensures ReplayAll(Path(tree, old(currentBestBlock.hash)), sent) == Path(tree, currentBestBlock.hash)
      ensures Reconnects(error)
    {
      CourseFollows(tree, Now(), sub);
      error := ImportAll(sub);
      SentHaveBlocks(tree, old(currentBestBlock.hash), sent);
      LineIsHighest(old(line), sent);
      ReplayHoldsBestPath(tree, old(currentBestBlock.hash), sent);
    }

    /** The session has come where these items lead from `start`, and ended as they make it end. */
    ghost predicate CameBy(sub: seq<Item>, start: View, error: Error)
      reads this, headerMetadata
      requires IsView(tree, start) && TrueItems(tree, sub)
    {
      var course := CourseOf(tree, start, sub);
      && sent == course.messages
      && currentBestBlock.hash == course.view.best
      && (error == SubscriptionClosed <==> !course.stopped)
      && course.view.known.Keys <= headerMetadata.blockHeaderData.Keys
      && (!course.stopped ==> headerMetadata.blockHeaderData == course.view.known)
    }

    method ImportAll(sub: seq<Item>) returns (error: Error)
      requires Valid() && TrueItems(tree, sub)
      requires sent == []
      modifies this`currentBestBlock, this`sent, this`line, headerMetadata
      ensures Valid()
      ensures CameBy(sub, old(Now()), error)
      ensures line == LineAfter(old(line), sent)
      ensures Reconnects(error)
    {
      ghost var start := Now();
      for i := 0 to |sub|
        invariant Valid()
        invariant CourseOf(tree, start, sub[..i]) == Course(Now(), sent, false)
        invariant line == LineAfter(old(line), sent)
      {
        assert sub[..i + 1][..i] == sub[..i] && sub[..i + 1][i] == sub[i];
        if sub[i].Broken? {
          StoppedStays(tree, start, sub, i + 1);
          return Rpc;
        }
        assert TrueItem(tree, sub[i]);
        LineStep(tree, old(line), sent, currentBestBlock.hash, sub[i].header, sub[i].node);
        var r := ImportBlock(sub[i].header, sub[i].node);
        if r.Err? {
          StoppedStays(tree, start, sub, i + 1);
          return r.error;
        }
      }
      assert sub[..|sub|] == sub;
      error := SubscriptionClosed;
    }
  }

  /** The errors after which the follower reconnects. */
  predicate Reconnects(error: Error) {
    error.Rpc? || error.SubscriptionClosed? || error.MissingBlockHeaderForNumber? || error.MissingBlockHeaderForHash?
  }

  /** `messages` are those of a chain of best-block moves from `start` to `best`. */
  ghost predicate Followed(tree: Headers, start: Hash, messages: seq<BlocksExt>, best: Hash)
    requires IsTree(tree)
  {
    FollowsFrom(tree, start, messages) && Tip(start, messages) == best
  }

  lemma LineOneMore(low: int, messages: seq<BlocksExt>, message: BlocksExt)
    requires message.blocks != []
    ensures LineAfter(low, messages + [message])
            == Max(LineAfter(low, messages),
                   SaturatingSub(message.blocks[|message.blocks| - 1].number, CACHE_HEADER_DEPTH))
  {
    assert (messages + [message])[..|messages|] == messages;
  }

  lemma {:induction false} FollowedStep(
    tree: Headers, start: Hash, messages: seq<BlocksExt>, best: Hash, header: Header, node: Node)
    requires IsTree(tree) && Followed(tree, start, messages, best)
    requires best in tree && header.hash in tree && tree[header.hash] == header
    ensures MessageOf(tree, best, header, node).Some? ==>
              Followed(tree, start, messages + [MessageOf(tree, best, header, node).value], header.hash)
  {
    FollowsOneMore(tree, start, messages, header.hash);
  }

  /** A sent message raises the line to what is pruned for its last block. */
  lemma {:induction false} LineStep(
    tree: Headers, low: int, messages: seq<BlocksExt>, best: Hash, header: Header, node: Node)
    requires IsTree(tree) && best in tree && header.hash in tree && tree[header.hash] == header
    ensures MessageOf(tree, best, header, node).Some? ==>
              LineAfter(low, messages + [MessageOf(tree, best, header, node).value])
              == Max(LineAfter(low, messages), SaturatingSub(header.number, CACHE_HEADER_DEPTH))
  {
    if MessageOf(tree, best, header, node).Some? {
      EnactedIsChained(tree, best, header.hash);
      LineOneMore(low, messages, MessageOf(tree, best, header, node).value);
    }
  }
}
