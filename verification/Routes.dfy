/**
 The route walk over the header cache, and the retry that fetches what the walk misses.

 The walk is the one of `sp_blockchain::tree_route`: raise the higher end until both stand at one
 number, then raise both until they meet.
 */
module Routes {
  import opened Chain
  import opened HeaderCache
  import opened Node
  import opened Outcomes

  /** The walk stands at `head` on `path`, having left the blocks above it in `branch`, tip first. */
  ghost predicate Standing(tree: Headers, path: seq<Hash>, known: Headers, head: Header, branch: seq<HashAndNumber>) {
    && head.number < |path|
    && path[head.number] == head.hash
    && head.hash in tree && tree[head.hash] == head
    && branch == Reversed(Rising(path, head.number + 1))
    && (forall k | head.number <= k < |path| :: path[k] in known)
  }

  lemma {:induction false} StepDown(
    tree: Headers, tip: Hash, known: Headers, head: Header, branch: seq<HashAndNumber>)
    requires IsTree(tree) && tip in tree && head.number > 0
    requires Standing(tree, Path(tree, tip), known, head, branch)
    ensures Path(tree, tip)[head.number - 1] == head.parentHash && head.parentHash in tree
    ensures tree[head.parentHash].number == head.number - 1
    ensures head.parentHash in known
            ==> Standing(tree, Path(tree, tip), known, tree[head.parentHash], branch + [Entry(head)])
  {
    var path := Path(tree, tip);
    PathParent(tree, tip, head.number);
    PathAt(tree, tip, head.number - 1);
    assert Linked(tree, head.parentHash);
    assert Rising(path, head.number) == [Entry(head)] + Rising(path, head.number + 1);
  }

  /** Both ends stand on the same block, which no two paths can do above the shared part. */
  lemma {:induction false} WalkMeets(
    tree: Headers, from: Hash, to: Hash, known: Headers, head: Header,
    fromBranch: seq<HashAndNumber>, toBranch: seq<HashAndNumber>)
    requires IsTree(tree) && from in tree && to in tree
    requires Standing(tree, Path(tree, from), known, head, fromBranch)
    requires Standing(tree, Path(tree, to), known, head, toBranch)
    requires CommonLength(Path(tree, from), Path(tree, to)) <= head.number + 1
    ensures RouteOf(tree, from, to)
              == TreeRoute(fromBranch + [Entry(head)] + Reversed(toBranch), |fromBranch|)
  {
    MeetBelowCommonLength(tree, from, to, head.number);
    assert Reversed(toBranch) == Rising(Path(tree, to), head.number + 1);
  }

  lemma {:induction false} WalkSawTheRoute(
    tree: Headers, from: Hash, to: Hash, known: Headers, head: Header,
    fromBranch: seq<HashAndNumber>, toBranch: seq<HashAndNumber>)
    requires IsTree(tree) && from in tree && to in tree
    requires Standing(tree, Path(tree, from), known, head, fromBranch)
    requires Standing(tree, Path(tree, to), known, head, toBranch)
    ensures RouteHashes(tree, from, to) <= known.Keys
  {
    forall h | h in RouteHashes(tree, from, to)
      ensures h in known
    {
      RouteBlockSeen(tree, from, to, known, head, fromBranch, toBranch, h);
    }
  }

  lemma {:induction false} RouteBlockSeen(
    tree: Headers, from: Hash, to: Hash, known: Headers, head: Header,
    fromBranch: seq<HashAndNumber>, toBranch: seq<HashAndNumber>, h: Hash)
    requires IsTree(tree) && from in tree && to in tree && h in RouteHashes(tree, from, to)
    requires Standing(tree, Path(tree, from), known, head, fromBranch)
    requires Standing(tree, Path(tree, to), known, head, toBranch)
    ensures h in known
  {
    MeetBelowCommonLength(tree, from, to, head.number);
    RouteHashOnPath(tree, from, to, h);
    assert head.number <= tree[h].number;
  }

  /** The uncached block that stopped a walk on `path` at or above index `floor`. */
  ghost predicate StoppedAt(known: Headers, path: seq<Hash>, floor: nat, error: Error) {
    && error.MissingBlockHashFromCache?
    && error.hash !in known
    && error.hash in path[if floor < |path| then floor else |path|..]
  }

  /** The first and the second loop: raises one end of the walk to a number. */
  method Raise(cache: HeadersMetadataCache, ghost tree: Headers, tip: Hash, number: nat)
    returns (r: Result<(Header, seq<HashAndNumber>), Error>)
    requires IsTree(tree) && tip in tree && Truthful(tree, cache.blockHeaderData)
    requires tip in cache.blockHeaderData
    ensures r.Ok? ==> Standing(tree, Path(tree, tip), cache.blockHeaderData, r.value.0, r.value.1)
    ensures r.Ok? ==> r.value.0.number == if number < tree[tip].number then number else tree[tip].number
    ensures r.Err? ==> StoppedAt(cache.blockHeaderData, Path(tree, tip), number, r.error)
  {
    ghost var path := Path(tree, tip);
    var branch: seq<HashAndNumber> := [];
    var first := cache.GetHeader(tip);
    var head := first.value;
    assert Linked(tree, tip);
    while head.number > number
      invariant Standing(tree, path, cache.blockHeaderData, head, branch)
      invariant head.number >= number || head == tree[tip]
      decreases head.number
    {
      StepDown(tree, tip, cache.blockHeaderData, head, branch);
      branch := branch + [Entry(head)];
      var parent := cache.GetHeader(head.parentHash);
      if parent.Err? {
        assert path[number..][head.number - 1 - number] == head.parentHash;
        return Err(parent.error);
      }
      head := parent.value;
    }
    r := Ok((head, branch));
  }

  /**
   The walk. It gives the route of the fully known tree when every block of that route is cached,
   and otherwise names an uncached block of the route.
   */
  method WalkTreeRoute(cache: HeadersMetadataCache, ghost tree: Headers, from: Hash, to: Hash)
    returns (r: Result<TreeRoute, Error>)
    requires IsTree(tree) && from in tree && to in tree && Truthful(tree, cache.blockHeaderData)
    ensures r.Ok? <==> RouteHashes(tree, from, to) <= cache.blockHeaderData.Keys
    ensures r.Ok? ==> r.value == RouteOf(tree, from, to)
    ensures r.Err? ==> && r.error.MissingBlockHashFromCache?
                       && r.error.hash in RouteHashes(tree, from, to)
                       && r.error.hash !in cache.blockHeaderData
  {
    PathBlockOnRoute(tree, from, to, tree[from].number);
    PathBlockOnRoute(tree, from, to, tree[to].number);
    var f := cache.GetHeader(from);
    if f.Err? { return Err(f.error); }
    var t := cache.GetHeader(to);
    if t.Err? { return Err(t.error); }

    var toEnd := Raise(cache, tree, to, f.value.number);
    if toEnd.Err? {
      StopIsOnRoute(tree, from, to, cache.blockHeaderData, f.value.number, toEnd.error);
      return Err(toEnd.error);
    }
    var fromEnd := Raise(cache, tree, from, toEnd.value.0.number);
    if fromEnd.Err? {
      StopIsOnRoute(tree, from, to, cache.blockHeaderData, toEnd.value.0.number, fromEnd.error);
      return Err(fromEnd.error);
    }
    r := Join(cache, tree, from, to, fromEnd.value.0, fromEnd.value.1, toEnd.value.0, toEnd.value.1);
  }

  lemma {:induction false} StopIsOnRoute(
    tree: Headers, from: Hash, to: Hash, known: Headers, floor: nat, error: Error)
    requires IsTree(tree) && from in tree && to in tree
    requires CommonLength(Path(tree, from), Path(tree, to)) <= floor + 1
    requires StoppedAt(known, Path(tree, from), floor, error) || StoppedAt(known, Path(tree, to), floor, error)
    ensures error.hash in RouteHashes(tree, from, to) && error.hash !in known
  {
    var path := if StoppedAt(known, Path(tree, from), floor, error) then Path(tree, from) else Path(tree, to);
    var k :| floor <= k < |path| && path[k] == error.hash;
    PathBlockOnRoute(tree, from, to, k);
  }

  /** The third loop: both ends stand at one number and are raised until they meet. */
  method Join(
    cache: HeadersMetadataCache, ghost tree: Headers, ghost from: Hash, ghost to: Hash,
    fromHead: Header, fromAbove: seq<HashAndNumber>, toHead: Header, toAbove: seq<HashAndNumber>)
    returns (r: Result<TreeRoute, Error>)
    requires IsTree(tree) && from in tree && to in tree && Truthful(tree, cache.blockHeaderData)
    requires Standing(tree, Path(tree, from), cache.blockHeaderData, fromHead, fromAbove)
    requires Standing(tree, Path(tree, to), cache.blockHeaderData, toHead, toAbove)
    requires fromHead.number == toHead.number
    requires CommonLength(Path(tree, from), Path(tree, to)) <= toHead.number + 1
    ensures r.Ok? ==> RouteHashes(tree, from, to) <= cache.blockHeaderData.Keys
    ensures r.Ok? ==> r.value == RouteOf(tree, from, to)
    ensures r.Err? ==> && r.error.MissingBlockHashFromCache?
                       && r.error.hash in RouteHashes(tree, from, to)
                       && r.error.hash !in cache.blockHeaderData
  {
    ghost var p, q, known := Path(tree, from), Path(tree, to), cache.blockHeaderData;
    var f, fromBranch, t, toBranch := fromHead, fromAbove, toHead, toAbove;
    while t.hash != f.hash
      invariant Standing(tree, q, known, t, toBranch)
      invariant Standing(tree, p, known, f, fromBranch)
      invariant f.number == t.number && t.number + 1 >= CommonLength(p, q)
      decreases t.number
    {
      MeetBelowCommonLength(tree, from, to, t.number);
      PathsStartTogether(tree, from, to);
      StepDown(tree, to, known, t, toBranch);
      StepDown(tree, from, known, f, fromBranch);
      PathBlockOnRoute(tree, from, to, t.number - 1);
      toBranch := toBranch + [Entry(t)];
      var toParent := cache.GetHeader(t.parentHash);
      if toParent.Err? { return Err(toParent.error); }
      fromBranch := fromBranch + [Entry(f)];
      var fromParent := cache.GetHeader(f.parentHash);
      if fromParent.Err? { return Err(fromParent.error); }
      t, f := toParent.value, fromParent.value;
    }
    WalkMeets(tree, from, to, known, f, fromBranch, toBranch);
    WalkSawTheRoute(tree, from, to, known, f, fromBranch, toBranch);
    r := Ok(TreeRoute(fromBranch + [Entry(t)] + Reversed(toBranch), |fromBranch|));
  }

  /** The uncached blocks of the route that the node does not serve. */
  ghost function Unserved(tree: Headers, known: Headers, node: Node, from: Hash, to: Hash): set<Hash>
    requires IsTree(tree) && from in tree && to in tree
  {
    set h | h in RouteHashes(tree, from, to) && h !in known && node.GetHeader(h).Err?
  }

  /**
   The retry: fetches the header the walk missed and walks again. Whatever the cache held, it ends,
   gives the route of the fully known tree exactly when the node serves every uncached block of that
   route, and adds true headers of the route only.
   */
  method RecursiveTreeRoute(cache: HeadersMetadataCache, ghost tree: Headers, node: Node, from: Hash, to: Hash)
    returns (r: Result<TreeRoute, Error>)
    requires IsTree(tree) && from in tree && to in tree
    requires cache.Valid() && Truthful(tree, cache.blockHeaderData) && Truthful(tree, node.headers)
    modifies cache
    ensures cache.Valid() && Truthful(tree, cache.blockHeaderData)
    ensures r.Ok? <==> Unserved(tree, old(cache.blockHeaderData), node, from, to) == {}
    ensures r.Ok? ==> r.value == RouteOf(tree, from, to)
    ensures r.Ok? ==> cache.blockHeaderData.Keys == old(cache.blockHeaderData).Keys + RouteHashes(tree, from, to)
    ensures r.Err? ==> exists h | h in Unserved(tree, old(cache.blockHeaderData), node, from, to) ::
                         node.GetHeader(h) == Err(r.error)
    ensures old(cache.blockHeaderData).Keys <= cache.blockHeaderData.Keys
              <= old(cache.blockHeaderData).Keys + RouteHashes(tree, from, to)
    decreases RouteHashes(tree, from, to) - cache.blockHeaderData.Keys
  {
    ghost var before := cache.blockHeaderData;
    r := WalkTreeRoute(cache, tree, from, to);
    if r.Ok? {
      CoveredRoute(tree, before, node, from, to);
    } else if r.error.MissingBlockHashFromCache? {
      var hash := r.error.hash;
      var header := node.GetHeader(hash);
      if header.Err? {
        assert hash in Unserved(tree, cache.blockHeaderData, node, from, to);
        return Err(header.error);
      }
      RouteHashOnPath(tree, from, to, hash);
      assert Linked(tree, hash);
      var _ := cache.AddHeader(header.value);
      FetchKeepsUnserved(tree, before, node, from, to, hash);
      r := RecursiveTreeRoute(cache, tree, node, from, to);
    }
  }

  lemma CoveredRoute(tree: Headers, known: Headers, node: Node, from: Hash, to: Hash)
    requires IsTree(tree) && from in tree && to in tree
    requires RouteHashes(tree, from, to) <= known.Keys
    ensures Unserved(tree, known, node, from, to) == {}
    ensures known.Keys + RouteHashes(tree, from, to) == known.Keys
  {
  }

  lemma FetchKeepsUnserved(tree: Headers, known: Headers, node: Node, from: Hash, to: Hash, hash: Hash)
    requires IsTree(tree) && from in tree && to in tree
    requires hash in RouteHashes(tree, from, to) && hash !in known && hash in tree && node.GetHeader(hash).Ok?
    ensures Unserved(tree, known[hash := tree[hash]], node, from, to) == Unserved(tree, known, node, from, to)
    ensures known[hash := tree[hash]].Keys + RouteHashes(tree, from, to) == known.Keys + RouteHashes(tree, from, to)
    ensures RouteHashes(tree, from, to) - known[hash := tree[hash]].Keys < RouteHashes(tree, from, to) - known.Keys
  {
    assert hash in RouteHashes(tree, from, to) - known.Keys;
  }
}
