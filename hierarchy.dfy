/** The contour hierarchy delivered by the boundary tracer, as an arena of
    link records, and the nesting depth of every contour in it. */
module Hierarchy {

  /** One arena record: indices of the next and previous sibling, the first
      child and the parent, each -1 when absent. */
  datatype Link = Link(next: int, previous: int, firstChild: int, parent: int)

  /** Every link is -1 or an index of the arena. */
  predicate LinksInRange(h: seq<Link>)
  {
    forall i :: 0 <= i < |h| ==>
      -1 <= h[i].next < |h| && -1 <= h[i].previous < |h| &&
      -1 <= h[i].firstChild < |h| && -1 <= h[i].parent < |h|
  }

  /** The arena is an acyclic forest as far as the depth walk is concerned:
      `rank` strictly decreases along every first-child and every next-sibling
      link (any forest has such a rank, e.g. the height in the
      first-child/next-sibling graph). */
  predicate Forest(h: seq<Link>, rank: seq<nat>)
  {
    LinksInRange(h) && |rank| == |h| &&
    forall i :: 0 <= i < |h| ==>
      (h[i].firstChild != -1 ==> rank[h[i].firstChild] < rank[i]) &&
      (h[i].next != -1 ==> rank[h[i].next] < rank[i])
  }

  /** The sibling chain that starts at `c` and follows `next` links. */
  function Chain(h: seq<Link>, ghost rank: seq<nat>, c: int): (r: seq<nat>)
    requires Forest(h, rank) && -1 <= c < |h|
    ensures c == -1 <==> r == []
    ensures forall k :: 0 <= k < |r| ==> r[k] < |h| && rank[r[k]] <= rank[c]
    ensures r != [] ==> r[0] == c && h[r[|r| - 1]].next == -1
    ensures forall k :: 0 <= k < |r| - 1 ==> r[k + 1] == h[r[k]].next
    decreases if c == -1 then 0 else rank[c] + 1
  {
    if c == -1 then [] else [c] + Chain(h, rank, h[c].next)
  }

  /** The children of node i, in the order of the sibling chain that starts
      at its first child. */
  function Children(h: seq<Link>, ghost rank: seq<nat>, i: nat): (r: seq<nat>)
    requires Forest(h, rank) && i < |h|
    ensures forall k :: 0 <= k < |r| ==> r[k] < |h| && rank[r[k]] < rank[i]
  {
    Chain(h, rank, h[i].firstChild)
  }

  /** Depth of node i: 1 for a node without children, otherwise 1 plus the
      largest depth among its children. */
  function Depth(h: seq<Link>, ghost rank: seq<nat>, i: nat): (d: nat)
    requires Forest(h, rank) && i < |h|
    decreases rank[i], 1
  {
    var cs := Children(h, rank, i);
    if cs == [] then 1 else 1 + MaxDepth(h, rank, cs, rank[i])
  }

  /** The largest depth among the nodes cs, each ranked below `bound`. */
  function MaxDepth(h: seq<Link>, ghost rank: seq<nat>, cs: seq<nat>, ghost bound: nat): (m: nat)
    requires Forest(h, rank)
    requires forall k :: 0 <= k < |cs| ==> cs[k] < |h| && rank[cs[k]] < bound
    decreases bound, 0, |cs|
  {
    if cs == [] then 0
    else
      var d := Depth(h, rank, cs[0]);
      var rest := MaxDepth(h, rank, cs[1..], bound);
      if d > rest then d else rest
  }

  /** MaxDepth is an upper bound of the depths in cs, attained by one of them
      when cs is not empty. */
  lemma {:induction false} MaxDepthIsMaximum(h: seq<Link>, rank: seq<nat>, cs: seq<nat>, bound: nat)
    requires Forest(h, rank)
    requires forall k :: 0 <= k < |cs| ==> cs[k] < |h| && rank[cs[k]] < bound
    ensures forall k :: 0 <= k < |cs| ==> Depth(h, rank, cs[k]) <= MaxDepth(h, rank, cs, bound)
    ensures cs != [] ==> exists k :: 0 <= k < |cs| && Depth(h, rank, cs[k]) == MaxDepth(h, rank, cs, bound)
    ensures cs == [] ==> MaxDepth(h, rank, cs, bound) == 0
  {
    if cs != [] {
      MaxDepthIsMaximum(h, rank, cs[1..], bound);
      var m := MaxDepth(h, rank, cs, bound);
      forall k | 0 <= k < |cs|
        ensures Depth(h, rank, cs[k]) <= m
      {
        if k > 0 {
          assert cs[k] == cs[1..][k - 1];
        }
      }
      if Depth(h, rank, cs[0]) != m {
        var k' :| 0 <= k' < |cs[1..]| && Depth(h, rank, cs[1..][k']) == MaxDepth(h, rank, cs[1..], bound);
        assert cs[1..][k'] == cs[k' + 1];
      }
    }
  }

  /** Every node has depth at least 1; a leaf has depth exactly 1; any other
      node is exactly one deeper than its deepest child. */
  lemma DepthCharacterisation(h: seq<Link>, rank: seq<nat>, i: nat)
    requires Forest(h, rank) && i < |h|
    ensures Depth(h, rank, i) >= 1
    ensures h[i].firstChild == -1 ==> Depth(h, rank, i) == 1
    ensures h[i].firstChild != -1 ==>
      var cs := Children(h, rank, i);
      (forall k :: 0 <= k < |cs| ==> Depth(h, rank, cs[k]) < Depth(h, rank, i)) &&
      (exists k :: 0 <= k < |cs| && Depth(h, rank, cs[k]) + 1 == Depth(h, rank, i))
  {
    var cs := Children(h, rank, i);
    if cs != [] {
      MaxDepthIsMaximum(h, rank, cs, rank[i]);
    }
  }

  /** A child is strictly shallower than its parent. */
  lemma ChildShallower(h: seq<Link>, rank: seq<nat>, i: nat, c: nat)
    requires Forest(h, rank) && i < |h|
    requires c in Children(h, rank, i)
    ensures c < |h| && Depth(h, rank, c) < Depth(h, rank, i)
  {
    DepthCharacterisation(h, rank, i);
  }

  /** The boundary tracer lists contours in pre-order: a first child and a
      next sibling always come later in the arena. Such an arena is a forest,
      ranked by the distance to the end of the arena. */
  lemma PreOrderIsForest(h: seq<Link>)
    requires LinksInRange(h)
    requires forall i :: 0 <= i < |h| ==>
      (h[i].firstChild != -1 ==> h[i].firstChild > i) && (h[i].next != -1 ==> h[i].next > i)
    ensures Forest(h, seq(|h|, i => |h| - i))
  {
  }

  /** A single nest of contours, each the only child of the one before it. */
  predicate Nest(h: seq<Link>)
  {
    forall i :: 0 <= i < |h| ==>
      h[i].next == -1 && h[i].firstChild == (if i + 1 < |h| then i + 1 else -1)
  }

  /** In a nest of n contours the outermost one has depth n, and in general
      contour i has depth n - i: the depth counts the nested boundaries. */
  lemma {:induction false} NestDepth(h: seq<Link>, rank: seq<nat>, i: nat)
    requires Forest(h, rank) && Nest(h) && i < |h|
    ensures Depth(h, rank, i) == |h| - i
    decreases |h| - i
  {
    if i + 1 < |h| {
      NestDepth(h, rank, i + 1);
      assert Chain(h, rank, i + 1) == [i + 1];
      assert Children(h, rank, i) == [i + 1];
      assert MaxDepth(h, rank, [], rank[i]) == 0;
      assert MaxDepth(h, rank, [i + 1], rank[i]) == Depth(h, rank, i + 1);
    } else {
      assert Children(h, rank, i) == [];
    }
  }

  /** The depth of every contour of the arena, keyed by its index. */
  ghost function DepthTable(h: seq<Link>, rank: seq<nat>): (t: map<int, nat>)
    requires Forest(h, rank)
  {
    map i | 0 <= i < |h| :: Depth(h, rank, i)
  }

  /** The depth table for the whole arena: one entry per contour index,
      filled in index order. */
  method ContourDepths(h: seq<Link>, ghost rank: seq<nat>) returns (result: map<int, nat>)
    requires Forest(h, rank)
    ensures forall i :: i in result <==> 0 <= i < |h|
    ensures forall i :: 0 <= i < |h| ==> result[i] == Depth(h, rank, i)
    ensures forall i :: 0 <= i < |h| ==> result[i] >= 1
    ensures result == DepthTable(h, rank)
  {
    result := map[];
    for i := 0 to |h|
      invariant forall j :: j in result <==> 0 <= j < i
      invariant forall j :: 0 <= j < i ==> result[j] == Depth(h, rank, j) >= 1
    {
      if i !in result {
        DepthCharacterisation(h, rank, i);
        result := result[i := Depth(h, rank, i)];
      }
    }
  }
}
