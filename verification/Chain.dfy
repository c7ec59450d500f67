/**
 Headers, the tree they form, and the route between two of its blocks.

 A header keeps what the follower uses: its own hash (hashing itself is not modelled, so two
 headers of one tree never share a hash), its parent's hash and its number.
 */
module Chain {

  type Hash = nat

  datatype Header = Header(hash: Hash, parentHash: Hash, number: nat)

  datatype HashAndNumber = HashAndNumber(number: nat, hash: Hash)

  type Headers = map<Hash, Header>

  /** The header's parent is known and numbered one less; only genesis has number 0. */
  ghost predicate Linked(tree: Headers, h: Hash)
    requires h in tree
  {
    && tree[h].hash == h
    && (tree[h].number > 0 ==>
          && tree[h].parentHash in tree
          && tree[tree[h].parentHash].number + 1 == tree[h].number)
  }

  /** All headers that ever exist in a run: parent-linked down to a single genesis block. */
  ghost predicate IsTree(tree: Headers) {
    && (forall h {:trigger Linked(tree, h)} | h in tree :: Linked(tree, h))
    && (forall g, h | IsGenesis(tree, g) && IsGenesis(tree, h) :: g == h)
  }

  ghost predicate IsGenesis(tree: Headers, h: Hash) {
    h in tree && tree[h].number == 0
  }

  /** Every header of `some` is a true header of `tree`. */
  ghost predicate Truthful(tree: Headers, some: Headers) {
    forall h | h in some :: h in tree && some[h] == tree[h]
  }

  /** The hashes from genesis up to `h`; the block at index `i` has number `i`. */
  ghost function Path(tree: Headers, h: Hash): (path: seq<Hash>)
    requires IsTree(tree) && h in tree
    ensures |path| == tree[h].number + 1 && path[tree[h].number] == h
    decreases tree[h].number
  {
    assert Linked(tree, h);
    if tree[h].number == 0 then [h] else Path(tree, tree[h].parentHash) + [h]
  }

  /** A block on a path has its index as number, and its own path is the part up to it. */
  lemma {:induction false} PathAt(tree: Headers, h: Hash, i: nat)
    requires IsTree(tree) && h in tree && i <= tree[h].number
    ensures Path(tree, h)[i] in tree
    ensures tree[Path(tree, h)[i]].number == i
    ensures Path(tree, Path(tree, h)[i]) == Path(tree, h)[..i + 1]
    decreases tree[h].number
  {
    assert Linked(tree, h);
    if i < tree[h].number {
      PathAt(tree, tree[h].parentHash, i);
    }
  }

  /** On a path, each block's parent is the block before it. */
  lemma {:induction false} PathParent(tree: Headers, h: Hash, i: nat)
    requires IsTree(tree) && h in tree && 0 < i <= tree[h].number
    ensures Path(tree, h)[i] in tree && tree[Path(tree, h)[i]].parentHash == Path(tree, h)[i - 1]
  {
    PathAt(tree, h, i);
    var a := Path(tree, h)[i];
    assert Linked(tree, a);
    assert Path(tree, a) == Path(tree, tree[a].parentHash) + [a];
    assert Path(tree, h)[i - 1] == Path(tree, h)[..i + 1][i - 1];
  }

  /** Paths that meet at an index agree below it. */
  lemma {:induction false} PathsMeet(tree: Headers, g: Hash, h: Hash, i: nat)
    requires IsTree(tree) && g in tree && h in tree && i <= tree[g].number && i <= tree[h].number
    requires Path(tree, g)[i] == Path(tree, h)[i]
    ensures Path(tree, g)[..i + 1] == Path(tree, h)[..i + 1]
  {
    PathAt(tree, g, i);
    PathAt(tree, h, i);
  }

  /** All paths start at the one genesis block. */
  lemma {:induction false} PathsStartTogether(tree: Headers, g: Hash, h: Hash)
    requires IsTree(tree) && g in tree && h in tree
    ensures Path(tree, g)[0] == Path(tree, h)[0]
  {
    PathAt(tree, g, 0);
    PathAt(tree, h, 0);
    assert IsGenesis(tree, Path(tree, g)[0]) && IsGenesis(tree, Path(tree, h)[0]);
  }

  /** `a` lies on the path to `h` (a block is its own ancestor here). */
  ghost predicate IsAncestor(tree: Headers, a: Hash, h: Hash)
    requires IsTree(tree) && h in tree
  {
    a in Path(tree, h)
  }

  /** Length of the longest common prefix. */
  ghost function CommonLength(p: seq<Hash>, q: seq<Hash>): (n: nat)
    ensures n <= |p| && n <= |q|
    ensures p[..n] == q[..n]
    ensures n < |p| && n < |q| ==> p[n] != q[n]
  {
    if p == [] || q == [] || p[0] != q[0] then 0
    else
      var n := CommonLength(p[1..], q[1..]);
      assert p[..n + 1] == [p[0]] + p[1..][..n];
      assert q[..n + 1] == [q[0]] + q[1..][..n];
      n + 1
  }

  /** The blocks of a path from index `lo` upwards. */
  ghost function Rising(path: seq<Hash>, lo: nat): (blocks: seq<HashAndNumber>)
    requires lo <= |path|
    ensures |blocks| == |path| - lo
  {
    seq(|path| - lo, i requires 0 <= i < |path| - lo => HashAndNumber(lo + i, path[lo + i]))
  }

  function Reversed<T>(s: seq<T>): (r: seq<T>)
    ensures |r| == |s| && forall i :: 0 <= i < |s| ==> r[i] == s[|s| - 1 - i]
  {
    if s == [] then [] else Reversed(s[1..]) + [s[0]]
  }

  lemma ReversedTwice<T>(s: seq<T>)
    ensures Reversed(Reversed(s)) == s
  {
  }

  function Entry(header: Header): HashAndNumber {
    HashAndNumber(header.number, header.hash)
  }

  function Hashes(blocks: seq<HashAndNumber>): (hashes: seq<Hash>)
    ensures |hashes| == |blocks| && forall i :: 0 <= i < |blocks| ==> hashes[i] == blocks[i].hash
  {
    seq(|blocks|, i requires 0 <= i < |blocks| => blocks[i].hash)
  }

  /** A route in the layout of `sp_blockchain`: down to the pivot, then up. */
  datatype TreeRoute = TreeRoute(route: seq<HashAndNumber>, pivot: nat) {
    predicate Valid() { pivot < |route| }

    function Retracted(): seq<HashAndNumber> requires Valid() { route[..pivot] }

    function CommonBlock(): HashAndNumber requires Valid() { route[pivot] }

    function Enacted(): seq<HashAndNumber> requires Valid() { route[pivot + 1..] }
  }

  /** The route between two blocks of a fully known tree, defined by the two paths alone. */
  ghost function RouteOf(tree: Headers, from: Hash, to: Hash): (r: TreeRoute)
    requires IsTree(tree) && from in tree && to in tree
    ensures r.Valid()
  {
    PathsStartTogether(tree, from, to);
    var p, q := Path(tree, from), Path(tree, to);
    var c := CommonLength(p, q);
    TreeRoute(Reversed(Rising(p, c)) + [HashAndNumber(c - 1, p[c - 1])] + Rising(q, c), |p| - c)
  }

  function Elements(hashes: seq<Hash>): set<Hash> {
    set h | h in hashes
  }

  /** The blocks the route passes: those of both paths from the common block upwards. */
  ghost function RouteHashes(tree: Headers, from: Hash, to: Hash): set<Hash>
    requires IsTree(tree) && from in tree && to in tree
  {
    PathsStartTogether(tree, from, to);
    var p, q := Path(tree, from), Path(tree, to);
    var c := CommonLength(p, q);
    Elements(p[c - 1..]) + Elements(q[c - 1..])
  }

  /** The blocks of a path from the common block upwards are on the route. */
  lemma {:induction false} PathBlockOnRoute(tree: Headers, from: Hash, to: Hash, k: nat)
    requires IsTree(tree) && from in tree && to in tree
    requires CommonLength(Path(tree, from), Path(tree, to)) <= k + 1
    ensures k < |Path(tree, from)| ==> Path(tree, from)[k] in RouteHashes(tree, from, to)
    ensures k < |Path(tree, to)| ==> Path(tree, to)[k] in RouteHashes(tree, from, to)
  {
    PathsStartTogether(tree, from, to);
    var p, q := Path(tree, from), Path(tree, to);
    var c := CommonLength(p, q);
    assert k < |p| ==> p[c - 1..][k - (c - 1)] == p[k];
    assert k < |q| ==> q[c - 1..][k - (c - 1)] == q[k];
  }

  /** Conversely, a block on the route has a number at least the common block's, on one of the paths. */
  lemma {:induction false} RouteHashOnPath(tree: Headers, from: Hash, to: Hash, h: Hash)
    requires IsTree(tree) && from in tree && to in tree && h in RouteHashes(tree, from, to)
    ensures h in tree
    ensures tree[h].number + 1 >= CommonLength(Path(tree, from), Path(tree, to))
    ensures || (tree[h].number <= tree[from].number && Path(tree, from)[tree[h].number] == h)
            || (tree[h].number <= tree[to].number && Path(tree, to)[tree[h].number] == h)
  {
    PathsStartTogether(tree, from, to);
    var c := CommonLength(Path(tree, from), Path(tree, to));
    if h in Path(tree, from)[c - 1..] {
      OnPathFrom(tree, from, c - 1, h);
    } else {
      OnPathFrom(tree, to, c - 1, h);
    }
  }

  lemma {:induction false} OnPathFrom(tree: Headers, tip: Hash, lo: nat, h: Hash)
    requires IsTree(tree) && tip in tree && lo <= tree[tip].number && h in Path(tree, tip)[lo..]
    ensures h in tree && lo <= tree[h].number <= tree[tip].number && Path(tree, tip)[tree[h].number] == h
  {
    var k :| 0 <= k < |Path(tree, tip)| - lo && Path(tree, tip)[lo..][k] == h;
    PathAt(tree, tip, lo + k);
  }

  /** The parts of `RouteOf`, in terms of the two paths. */
  lemma {:induction false} RouteParts(tree: Headers, from: Hash, to: Hash)
    requires IsTree(tree) && from in tree && to in tree
    ensures var r := RouteOf(tree, from, to);
            var p, q := Path(tree, from), Path(tree, to);
            var c := CommonLength(p, q);
            && c > 0
            && r.Retracted() == Reversed(Rising(p, c))
            && r.Enacted() == Rising(q, c)
            && r.CommonBlock() == HashAndNumber(c - 1, p[c - 1])
            && p[c - 1] == q[c - 1]
  {
    PathsStartTogether(tree, from, to);
    var p, q := Path(tree, from), Path(tree, to);
    var c := CommonLength(p, q);
    assert c > 0;
    assert p[..c][c - 1] == q[..c][c - 1];
  }

  /** Paths agree exactly below their common length. */
  lemma {:induction false} MeetBelowCommonLength(tree: Headers, g: Hash, h: Hash, i: nat)
    requires IsTree(tree) && g in tree && h in tree && i <= tree[g].number && i <= tree[h].number
    ensures Path(tree, g)[i] == Path(tree, h)[i] <==> i < CommonLength(Path(tree, g), Path(tree, h))
  {
    var p, q := Path(tree, g), Path(tree, h);
    var c := CommonLength(p, q);
    if p[i] == q[i] {
      PathsMeet(tree, g, h, i);
      forall k | 0 <= k <= i
        ensures p[k] == q[k]
      {
        assert p[k] == p[..i + 1][k] && q[k] == q[..i + 1][k];
      }
    }
    if i < c {
      assert p[i] == p[..c][i] && q[i] == q[..c][i];
    }
  }

  lemma RisingHashes(path: seq<Hash>, lo: nat)
    requires lo <= |path|
    ensures path[..lo] + Hashes(Rising(path, lo)) == path
    ensures path[..lo] + Reversed(Hashes(Reversed(Rising(path, lo)))) == path
  {
  }

  /** The path to the common block is the shared part of the two paths. */
  lemma {:induction false} CommonPath(tree: Headers, from: Hash, to: Hash)
    requires IsTree(tree) && from in tree && to in tree
    ensures var common := RouteOf(tree, from, to).CommonBlock();
            && common.hash in tree
            && tree[common.hash].number == common.number
            && common.number < |Path(tree, from)| && common.number < |Path(tree, to)|
            && Path(tree, common.hash) == Path(tree, from)[..common.number + 1]
            && Path(tree, common.hash) == Path(tree, to)[..common.number + 1]
  {
    RouteParts(tree, from, to);
    PathAt(tree, from, RouteOf(tree, from, to).CommonBlock().number);
  }

  /**
   Route correctness. The two paths are the path to the common block followed by the retracted
   blocks (tip last) and the enacted blocks; the difference of the two heights is the difference
   of the two lengths.
   */
  lemma {:induction false} RouteJoinsPaths(tree: Headers, from: Hash, to: Hash)
    requires IsTree(tree) && from in tree && to in tree
    ensures var r := RouteOf(tree, from, to);
            && r.CommonBlock().hash in tree
            && tree[r.CommonBlock().hash].number == r.CommonBlock().number
            && Path(tree, to) == Path(tree, r.CommonBlock().hash) + Hashes(r.Enacted())
            && Path(tree, from) == Path(tree, r.CommonBlock().hash) + Reversed(Hashes(r.Retracted()))
            && tree[to].number - tree[from].number == |r.Enacted()| - |r.Retracted()|
  {
    RouteParts(tree, from, to);
    CommonPath(tree, from, to);
    var c := CommonLength(Path(tree, from), Path(tree, to));
    RisingHashes(Path(tree, from), c);
    RisingHashes(Path(tree, to), c);
  }

  /** The common block is the highest common ancestor: every other one is an ancestor of it. */
  lemma {:induction false} CommonBlockIsHighest(tree: Headers, from: Hash, to: Hash, a: Hash)
    requires IsTree(tree) && from in tree && to in tree
    ensures RouteOf(tree, from, to).CommonBlock().hash in tree
    ensures (IsAncestor(tree, a, from) && IsAncestor(tree, a, to))
              <==> IsAncestor(tree, a, RouteOf(tree, from, to).CommonBlock().hash)
  {
    RouteParts(tree, from, to);
    var p, q := Path(tree, from), Path(tree, to);
    var c := CommonLength(p, q);
    PathAt(tree, from, c - 1);
    if a in p && a in q {
      var i :| 0 <= i < |p| && p[i] == a;
      var j :| 0 <= j < |q| && q[j] == a;
      PathAt(tree, from, i);
      PathAt(tree, to, j);
      MeetBelowCommonLength(tree, from, to, i);
      assert p[..c][i] == a;
    }
    if a in p[..c] {
      var i :| 0 <= i < c && p[..c][i] == a;
      assert p[i] == a && q[..c][i] == a;
    }
  }

  lemma RisingMember(path: seq<Hash>, lo: nat, x: HashAndNumber)
    requires lo <= |path|
    ensures x in Rising(path, lo) ==> lo <= x.number < |path| && path[x.number] == x.hash
    ensures x in Reversed(Rising(path, lo)) ==> lo <= x.number < |path| && path[x.number] == x.hash
  {
  }

  /** A route block above the common one sits on one path at its own number, above the shared part. */
  lemma {:induction false} RouteBlockAt(tree: Headers, from: Hash, to: Hash, x: HashAndNumber)
    requires IsTree(tree) && from in tree && to in tree
    ensures x in RouteOf(tree, from, to).Enacted() ==>
              && RouteOf(tree, from, to).CommonBlock().number < x.number <= tree[to].number
              && Path(tree, to)[x.number] == x.hash
    ensures x in RouteOf(tree, from, to).Retracted() ==>
              && RouteOf(tree, from, to).CommonBlock().number < x.number <= tree[from].number
              && Path(tree, from)[x.number] == x.hash
  {
    RouteParts(tree, from, to);
    var c := CommonLength(Path(tree, from), Path(tree, to));
    RisingMember(Path(tree, to), c, x);
    RisingMember(Path(tree, from), c, x);
  }

  /** No block is both enacted and retracted, and the common block is neither. */
  lemma {:induction false} EnactedAndRetractedAreDisjoint(tree: Headers, from: Hash, to: Hash, x: HashAndNumber)
    requires IsTree(tree) && from in tree && to in tree
    ensures x in RouteOf(tree, from, to).Enacted() ==>
              && x.hash != RouteOf(tree, from, to).CommonBlock().hash
              && forall y | y in RouteOf(tree, from, to).Retracted() :: x.hash != y.hash
    ensures x in RouteOf(tree, from, to).Retracted() ==>
              && x.hash != RouteOf(tree, from, to).CommonBlock().hash
              && forall y | y in RouteOf(tree, from, to).Enacted() :: x.hash != y.hash
  {
    if x in RouteOf(tree, from, to).Enacted() || x in RouteOf(tree, from, to).Retracted() {
      CommonBlockIsNeither(tree, from, to, x);
    }
    forall y | x in RouteOf(tree, from, to).Enacted() && y in RouteOf(tree, from, to).Retracted()
      ensures x.hash != y.hash
    {
      EnactedIsNotRetracted(tree, from, to, x, y);
    }
    forall y | x in RouteOf(tree, from, to).Retracted() && y in RouteOf(tree, from, to).Enacted()
      ensures x.hash != y.hash
    {
      EnactedIsNotRetracted(tree, from, to, y, x);
    }
  }

  lemma {:induction false} CommonBlockIsNeither(tree: Headers, from: Hash, to: Hash, x: HashAndNumber)
    requires IsTree(tree) && from in tree && to in tree
    requires x in RouteOf(tree, from, to).Enacted() || x in RouteOf(tree, from, to).Retracted()
    ensures x.hash != RouteOf(tree, from, to).CommonBlock().hash
  {
    RouteParts(tree, from, to);
    RouteBlockAt(tree, from, to, x);
    PathAt(tree, if x in RouteOf(tree, from, to).Enacted() then to else from, x.number);
    PathAt(tree, from, RouteOf(tree, from, to).CommonBlock().number);
  }

  lemma {:induction false} EnactedIsNotRetracted(
    tree: Headers, from: Hash, to: Hash, x: HashAndNumber, y: HashAndNumber)
    requires IsTree(tree) && from in tree && to in tree
    requires x in RouteOf(tree, from, to).Enacted() && y in RouteOf(tree, from, to).Retracted()
    ensures x.hash != y.hash
  {
    RouteParts(tree, from, to);
    RouteBlockAt(tree, from, to, x);
    RouteBlockAt(tree, from, to, y);
    PathAt(tree, to, x.number);
    PathAt(tree, from, y.number);
    if x.hash == y.hash {
      MeetBelowCommonLength(tree, from, to, x.number);
    }
  }
}
