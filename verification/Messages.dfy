/** The messages the follower broadcasts, and how a consumer replays them. */
module Messages {
  import opened Chain
  import opened Outcomes

  /** `enacted` leaves out the new best block; `retracted` rises to the old best block. */
  datatype ReorgData = ReorgData(
    enacted: seq<HashAndNumber>, retracted: seq<HashAndNumber>, commonBlock: HashAndNumber)

  datatype BlocksExt = BlocksExt(blocks: seq<Header>, maybeReorgData: Option<ReorgData>) {

    /** How many blocks of its tip a consumer has to drop. */
    function Depth(): nat {
      match maybeReorgData
      case None => 0
      case Some(reorg) => |reorg.retracted|
    }
  }

  function Entries(blocks: seq<Header>): (entries: seq<HashAndNumber>)
    ensures |entries| == |blocks| && forall i :: 0 <= i < |blocks| ==> entries[i] == Entry(blocks[i])
  {
    seq(|blocks|, i requires 0 <= i < |blocks| => Entry(blocks[i]))
  }

  /** A consumer that holds a path drops what was retracted and appends the message's blocks. */
  function Replay(path: seq<Hash>, message: BlocksExt): seq<Hash> {
    if message.Depth() > |path| then Hashes(Entries(message.blocks))
    else path[..|path| - message.Depth()] + Hashes(Entries(message.blocks))
  }

  function ReplayAll(path: seq<Hash>, messages: seq<BlocksExt>): seq<Hash> {
    if messages == [] then path
    else Replay(ReplayAll(path, messages[..|messages| - 1]), messages[|messages| - 1])
  }

  ghost predicate AllIn(tree: Headers, blocks: seq<HashAndNumber>) {
    forall i | 0 <= i < |blocks| :: blocks[i].hash in tree
  }

  ghost function HeadersOf(tree: Headers, blocks: seq<HashAndNumber>): (headers: seq<Header>)
    requires AllIn(tree, blocks)
    ensures |headers| == |blocks|
    ensures forall i | 0 <= i < |blocks| :: headers[i] == tree[blocks[i].hash]
  {
    seq(|blocks|, i requires 0 <= i < |blocks| => tree[blocks[i].hash])
  }

  lemma {:induction false} EnactedInTree(tree: Headers, from: Hash, to: Hash)
    requires IsTree(tree) && from in tree && to in tree
    ensures AllIn(tree, RouteOf(tree, from, to).Enacted())
    ensures AllIn(tree, RouteOf(tree, from, to).Retracted())
  {
    var enacted, retracted := RouteOf(tree, from, to).Enacted(), RouteOf(tree, from, to).Retracted();
    forall i | 0 <= i < |enacted|
      ensures enacted[i].hash in tree
    {
      RouteBlockAt(tree, from, to, enacted[i]);
      PathAt(tree, to, enacted[i].number);
    }
    forall i | 0 <= i < |retracted|
      ensures retracted[i].hash in tree
    {
      RouteBlockAt(tree, from, to, retracted[i]);
      PathAt(tree, from, retracted[i].number);
    }
  }

  /** The message for a move of the best block, or none when nothing is enacted. */
  ghost function MessageFor(tree: Headers, from: Hash, to: Hash): Option<BlocksExt>
    requires IsTree(tree) && from in tree && to in tree
  {
    EnactedInTree(tree, from, to);
    var route := RouteOf(tree, from, to);
    var enacted, retracted := route.Enacted(), route.Retracted();
    if enacted == [] then None
    else Some(BlocksExt(
                HeadersOf(tree, enacted),
                if retracted == [] then None
                else Some(ReorgData(enacted[..|enacted| - 1], Reversed(retracted), route.CommonBlock()))))
  }

  /** There is a message for every move but one to a block that is already on the old best path. */
  lemma {:induction false} MessageUnlessOnPath(tree: Headers, from: Hash, to: Hash)
    requires IsTree(tree) && from in tree && to in tree
    ensures MessageFor(tree, from, to).None? <==> IsAncestor(tree, to, from)
  {
    RouteParts(tree, from, to);
    var p, q := Path(tree, from), Path(tree, to);
    PathAt(tree, to, |q| - 1);
    if to in p {
      var i :| 0 <= i < |p| && p[i] == to;
      PathAt(tree, from, i);
      MeetBelowCommonLength(tree, from, to, i);
    }
  }

  /** Replaying one message takes the path to the old best block to the path to the new one. */
  lemma {:induction false} ReplayMovesPath(tree: Headers, from: Hash, to: Hash)
    requires IsTree(tree) && from in tree && to in tree && MessageFor(tree, from, to).Some?
    ensures Replay(Path(tree, from), MessageFor(tree, from, to).value) == Path(tree, to)
  {
    var message := MessageFor(tree, from, to).value;
    var route := RouteOf(tree, from, to);
    RouteJoinsPaths(tree, from, to);
    EnactedInTree(tree, from, to);
    HeadersKeepHashes(tree, route.Enacted());
    assert message.Depth() == |route.Retracted()|;
    var common := Path(tree, route.CommonBlock().hash);
    assert Path(tree, from)[..|Path(tree, from)| - message.Depth()] == common;
  }

  lemma {:induction false} HeadersKeepHashes(tree: Headers, blocks: seq<HashAndNumber>)
    requires IsTree(tree) && AllIn(tree, blocks)
    ensures Hashes(Entries(HeadersOf(tree, blocks))) == Hashes(blocks)
  {
    forall i | 0 <= i < |blocks|
      ensures tree[blocks[i].hash].hash == blocks[i].hash
    {
      assert Linked(tree, blocks[i].hash);
    }
  }

  /** Parent-linked blocks with numbers rising by one from `common`, ending in `tip`. */
  ghost predicate Chained(blocks: seq<Header>, common: HashAndNumber, tip: Header) {
    && |blocks| > 0
    && blocks[|blocks| - 1] == tip
    && blocks[0].parentHash == common.hash
    && (forall i | 0 <= i < |blocks| :: blocks[i].number == common.number + 1 + i)
    && (forall i | 0 < i < |blocks| :: blocks[i].parentHash == blocks[i - 1].hash)
  }

  /**
   The shape consumers rely on: blocks chained from the common block to the new best block,
   retracted blocks chained from the common block to the old best block, and reorg data that repeats
   the blocks without the last.
   */
  ghost predicate WellShaped(tree: Headers, from: Hash, to: Hash, message: BlocksExt)
    requires IsTree(tree) && from in tree && to in tree
  {
    var common := RouteOf(tree, from, to).CommonBlock();
    && Chained(message.blocks, common, tree[to])
    && tree[from].number == common.number + message.Depth()
    && match message.maybeReorgData
       case None => common.hash == from
       case Some(reorg) =>
         && reorg.commonBlock == common
         && AllIn(tree, reorg.retracted)
         && Chained(HeadersOf(tree, reorg.retracted), common, tree[from])
         && |reorg.enacted| == |message.blocks| - 1
         && (forall i | 0 <= i < |reorg.enacted| ::
               reorg.enacted[i] == HashAndNumber(message.blocks[i].number, message.blocks[i].hash))
  }

  /** The upper part of a path is chained from the block below it to the tip. */
  lemma {:induction false} RisingIsChained(tree: Headers, tip: Hash, lo: nat, common: HashAndNumber)
    requires IsTree(tree) && tip in tree && 0 < lo <= tree[tip].number
    requires common == HashAndNumber(lo - 1, Path(tree, tip)[lo - 1])
    ensures AllIn(tree, Rising(Path(tree, tip), lo))
    ensures Chained(HeadersOf(tree, Rising(Path(tree, tip), lo)), common, tree[tip])
    ensures forall i | 0 <= i < |Rising(Path(tree, tip), lo)| ::
              var b := Rising(Path(tree, tip), lo)[i];
              b == HashAndNumber(tree[b.hash].number, tree[b.hash].hash)
  {
    var rising := Rising(Path(tree, tip), lo);
    forall i | 0 <= i < |rising|
      ensures rising[i].hash in tree
      ensures rising[i] == HashAndNumber(tree[rising[i].hash].number, tree[rising[i].hash].hash)
      ensures tree[rising[i].hash].number == lo + i
      ensures tree[rising[i].hash].parentHash == Path(tree, tip)[lo + i - 1]
    {
      PathAt(tree, tip, lo + i);
      PathParent(tree, tip, lo + i);
      assert Linked(tree, rising[i].hash);
    }
  }

  lemma {:induction false} EnactedIsChained(tree: Headers, from: Hash, to: Hash)
    requires IsTree(tree) && from in tree && to in tree && MessageFor(tree, from, to).Some?
    ensures Chained(MessageFor(tree, from, to).value.blocks, RouteOf(tree, from, to).CommonBlock(), tree[to])
    ensures forall i | 0 <= i < |RouteOf(tree, from, to).Enacted()| ::
              var b := MessageFor(tree, from, to).value.blocks[i];
              RouteOf(tree, from, to).Enacted()[i] == HashAndNumber(b.number, b.hash)
  {
    RouteParts(tree, from, to);
    EnactedInTree(tree, from, to);
    RisingIsChained(tree, to, CommonLength(Path(tree, from), Path(tree, to)), RouteOf(tree, from, to).CommonBlock());
  }

  lemma {:induction false} RetractedIsChained(tree: Headers, from: Hash, to: Hash)
    requires IsTree(tree) && from in tree && to in tree
    requires RouteOf(tree, from, to).Retracted() != []
    ensures AllIn(tree, Reversed(RouteOf(tree, from, to).Retracted()))
    ensures Chained(HeadersOf(tree, Reversed(RouteOf(tree, from, to).Retracted())),
                    RouteOf(tree, from, to).CommonBlock(), tree[from])
  {
    RouteParts(tree, from, to);
    var c := CommonLength(Path(tree, from), Path(tree, to));
    ReversedTwice(Rising(Path(tree, from), c));
    RisingIsChained(tree, from, c, RouteOf(tree, from, to).CommonBlock());
  }

  lemma {:induction false} MessageShape(tree: Headers, from: Hash, to: Hash)
    requires IsTree(tree) && from in tree && to in tree && MessageFor(tree, from, to).Some?
    ensures WellShaped(tree, from, to, MessageFor(tree, from, to).value)
  {
    EnactedIsChained(tree, from, to);
    RouteParts(tree, from, to);
    if RouteOf(tree, from, to).Retracted() != [] {
      RetractedIsChained(tree, from, to);
    }
  }

  /** The best block after the messages. */
  function Tip(best: Hash, messages: seq<BlocksExt>): Hash {
    if messages == [] || messages[|messages| - 1].blocks == [] then best
    else messages[|messages| - 1].blocks[|messages[|messages| - 1].blocks| - 1].hash
  }

  /** Each message is the one for the move from the best block before it to its own last block. */
  ghost predicate FollowsFrom(tree: Headers, best: Hash, messages: seq<BlocksExt>)
    requires IsTree(tree)
  {
    && best in tree
    && (messages == [] ||
        var init := messages[..|messages| - 1];
        && FollowsFrom(tree, best, init)
        && Tip(best, messages) in tree
        && MessageFor(tree, Tip(best, init), Tip(best, messages)) == Some(messages[|messages| - 1]))
  }

  lemma {:induction false} FollowsTip(tree: Headers, best: Hash, messages: seq<BlocksExt>)
    requires IsTree(tree) && FollowsFrom(tree, best, messages)
    ensures Tip(best, messages) in tree
  {
  }

  /** A further move of the best block and its message. */
  lemma {:induction false} FollowsOneMore(tree: Headers, best: Hash, messages: seq<BlocksExt>, to: Hash)
    requires IsTree(tree) && FollowsFrom(tree, best, messages) && to in tree
    ensures Tip(best, messages) in tree
    ensures var message := MessageFor(tree, Tip(best, messages), to);
            message.Some? ==>
              && FollowsFrom(tree, best, messages + [message.value])
              && Tip(best, messages + [message.value]) == to
  {
    FollowsTip(tree, best, messages);
    var from := Tip(best, messages);
    if MessageFor(tree, from, to).Some? {
      var all := messages + [MessageFor(tree, from, to).value];
      EnactedIsChained(tree, from, to);
      assert Linked(tree, to);
      assert Tip(best, all) == to;
      assert all[..|all| - 1] == messages;
    }
  }

  lemma {:induction false} FollowsTwoMoves(tree: Headers, a: Hash, b: Hash, c: Hash)
    requires IsTree(tree) && a in tree && b in tree && c in tree
    requires MessageFor(tree, a, b).Some? && MessageFor(tree, b, c).Some?
    ensures FollowsFrom(tree, a, [MessageFor(tree, a, b).value] + [MessageFor(tree, b, c).value])
  {
    var first := MessageFor(tree, a, b).value;
    FollowsOneMore(tree, a, [], b);
    assert [] + [first] == [first];
    FollowsOneMore(tree, a, [first], c);
  }

  /** Replay refinement: after any messages the consumer holds exactly the path to the best block. */
  lemma {:induction false} ReplayHoldsBestPath(tree: Headers, best: Hash, messages: seq<BlocksExt>)
    requires IsTree(tree) && FollowsFrom(tree, best, messages)
    ensures Tip(best, messages) in tree
    ensures ReplayAll(Path(tree, best), messages) == Path(tree, Tip(best, messages))
  {
    if messages != [] {
      var init := messages[..|messages| - 1];
      ReplayHoldsBestPath(tree, best, init);
      ReplayMovesPath(tree, Tip(best, init), Tip(best, messages));
    }
  }
}
