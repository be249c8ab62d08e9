/** Walking a built octree: `octtree_child_iterator` over the 2^D slots of
    one child block, and `octtree_query::get_children`, `get_bucket` and
    `get_bucket_particles`. Positions and boxes are over `real`; a box is
    the pair of corner vectors `bmin`, `bmax`. */
module OctTreeNavigation {
  import opened Morton
  import opened Search
  import opened OctTreeBuild

  /** `detail::bbox<D>`: the corners `bmin` and `bmax`. */
  datatype Box = Box(bmin: seq<real>, bmax: seq<real>)

  predicate ValidBox(b: Box, dim: nat)
  {
    |b.bmin| == dim && |b.bmax| == dim && forall i :: 0 <= i < dim ==> b.bmin[i] < b.bmax[i]
  }

  /** `p` lies in the half-open box: `bmin <= p < bmax` on every axis. */
  predicate Contains(b: Box, p: seq<real>)
    requires |b.bmin| == |p| && |b.bmax| == |p|
  {
    forall i :: 0 <= i < |p| ==> b.bmin[i] <= p[i] < b.bmax[i]
  }

  /** `b` lies inside `outer`. */
  predicate Inside(b: Box, outer: Box, dim: nat)
    requires |b.bmin| == dim && |b.bmax| == dim && |outer.bmin| == dim && |outer.bmax| == dim
  {
    forall i :: 0 <= i < dim ==> outer.bmin[i] <= b.bmin[i] && b.bmax[i] <= outer.bmax[i]
  }

  function Mid(b: Box, i: nat): (r: real)
    requires i < |b.bmin| && i < |b.bmax|
  {
    0.5 * (b.bmax[i] + b.bmin[i])
  }

  // ---------------------------------------------------------------------
  // Child numbers as bit vectors
  // ---------------------------------------------------------------------

  /** Bit `j` of a non-negative integer, `(h >> j) & 1`. */
  function Bit(h: nat, j: nat): (b: nat)
    ensures b <= 1
  {
    if j == 0 then h % 2 else Bit(h / 2, j - 1)
  }

  /** `is_high(i)`: `m_high & (1 << (D-1-i))`, the bit of axis `i` in the
      child number; axis 0 is the most significant bit. */
  predicate IsHigh(high: nat, dim: nat, i: nat)
    requires i < dim
  {
    Bit(high, dim - 1 - i) == 1
  }

  /** The child number `go_to` has built after the first `k` axes: one bit
      per axis, set when the position is not below the midpoint. */
  function HighBits(b: Box, p: seq<real>, k: nat): (r: nat)
    requires k <= |p| && k <= |b.bmin| && k <= |b.bmax|
  {
    if k == 0 then 0
    else 2 * HighBits(b, p, k - 1) + (if p[k - 1] < Mid(b, k - 1) then 0 else 1)
  }

  lemma {:induction false} HighBitsBound(b: Box, p: seq<real>, k: nat)
    requires k <= |p| && k <= |b.bmin| && k <= |b.bmax|
    ensures HighBits(b, p, k) < Pow2(k)
  {
    if k > 0 {
      HighBitsBound(b, p, k - 1);
    }
  }

  /** Bit `k-1-i` of the number built from `k` axes is the test of axis `i`. */
  lemma {:induction false} HighBitsBit(b: Box, p: seq<real>, k: nat, i: nat)
    requires k <= |p| && k <= |b.bmin| && k <= |b.bmax| && i < k
    ensures Bit(HighBits(b, p, k), k - 1 - i) == if p[i] < Mid(b, i) then 0 else 1
  {
    var h := HighBits(b, p, k - 1);
    var bit := if p[k - 1] < Mid(b, k - 1) then 0 else 1;
    assert (2 * h + bit) / 2 == h && (2 * h + bit) % 2 == bit;
    if i < k - 1 {
      HighBitsBit(b, p, k - 1, i);
    }
  }

  // ---------------------------------------------------------------------
  // The child iterator
  // ---------------------------------------------------------------------

  /** `octtree_child_iterator`: `index` is the slot it points at (`m_index`
      as an offset into the node array), `high` the child number within
      the block (`m_high`), and `bounds` the box of the node whose children
      it walks (`m_bounds`). */
  datatype ChildIterator = ChildIterator(index: int, high: int, bounds: Box)

  /** `it == false`: the child number has run past the last child. */
  predicate AtEnd(it: ChildIterator, dim: nat)
  {
    it.high >= Pow2(dim)
  }

  /** The default constructor: no slot, child number 2^D. */
  function EndIterator(dim: nat): (it: ChildIterator)
    ensures AtEnd(it, dim)
  {
    ChildIterator(-1, Pow2(dim), Box([], []))
  }

  /** The iterator walks the block at `start`: it points at child `high` of
      that block and, unless at the end, at a non-empty slot. */
  ghost predicate Walks(nodes: seq<Slot>, it: ChildIterator, start: int, dim: nat)
  {
    && 0 <= start && start + Pow2(dim) <= |nodes|
    && 0 <= it.high <= Pow2(dim)
    && it.index == start + it.high
    && (it.high < Pow2(dim) ==> nodes[it.index] != Empty)
  }

  /** `increment`: step at least once, then keep stepping over EMPTY slots
      until a non-empty slot or the end of the block. */
  method Increment(nodes: seq<Slot>, it: ChildIterator, ghost start: int, dim: nat)
    returns (it': ChildIterator)
    requires 0 <= start && start + Pow2(dim) <= |nodes|
    requires 0 <= it.high < Pow2(dim) && it.index == start + it.high
    ensures Walks(nodes, it', start, dim) && it'.bounds == it.bounds
    ensures it.high < it'.high
    ensures forall j :: it.index < j < it'.index ==> nodes[j] == Empty
  {
    it' := it.(index := it.index + 1, high := it.high + 1);
    while it'.high < Pow2(dim) && nodes[it'.index] == Empty
      invariant it.high < it'.high <= Pow2(dim)
      invariant it'.index == start + it'.high && it'.bounds == it.bounds
      invariant forall j :: it.index < j < it'.index ==> nodes[j] == Empty
      decreases Pow2(dim) - it'.high
    {
      it' := it'.(index := it'.index + 1, high := it'.high + 1);
    }
  }

  /** The constructor `octtree_child_iterator(start, bounds)`: child 0 of the
      block at `start`, moved on to the first non-empty child. */
  method NewChildIterator(nodes: seq<Slot>, start: int, bounds: Box, dim: nat)
    returns (it: ChildIterator)
    requires 0 <= start && start + Pow2(dim) <= |nodes|
    ensures Walks(nodes, it, start, dim) && it.bounds == bounds
    ensures forall j :: start <= j < it.index ==> nodes[j] == Empty
  {
    it := ChildIterator(start, 0, bounds);
    if nodes[start] == Empty {
      it := Increment(nodes, it, start, dim);
    }
  }

  /** `go_to(position)`: move to the child whose half-box holds `p`. Axis
      `i` sets bit `D-1-i` of the child number exactly when `p[i]` is not
      below the midpoint. The library ors each bit into a number that was
      just shifted left, which is adding it; positions outside the box
      fail the source's assertions, so a containing box is required. */
  method GoTo(it: ChildIterator, p: seq<real>, dim: nat) returns (it': ChildIterator)
    requires ValidBox(it.bounds, dim) && |p| == dim
    requires Contains(it.bounds, p)
    ensures 0 <= it'.high < Pow2(dim)
    ensures it'.index - it'.high == it.index - it.high && it'.bounds == it.bounds
    ensures forall i :: 0 <= i < dim ==> (IsHigh(it'.high, dim, i) <==> p[i] >= Mid(it.bounds, i))
    ensures it'.high == HighBits(it.bounds, p, dim)
  {
    var newHigh := 0;
    var i := 0;
    while i < dim
      invariant 0 <= i <= dim
      invariant newHigh == 2 * HighBits(it.bounds, p, i)
    {
      var mid := 0.5 * (it.bounds.bmax[i] + it.bounds.bmin[i]);
      newHigh := newHigh + (if p[i] < mid then 0 else 1);
      newHigh := newHigh * 2;
      i := i + 1;
    }
    newHigh := newHigh / 2;
    HighBitsBound(it.bounds, p, dim);
    forall k | 0 <= k < dim
      ensures IsHigh(newHigh, dim, k) <==> p[k] >= Mid(it.bounds, k)
    {
      HighBitsBit(it.bounds, p, dim, k);
    }
    it' := it.(index := it.index - it.high + newHigh, high := newHigh);
  }

  /** `get_bounds`: the half of the iterator's box on the side its child
      number picks, axis by axis. */
  function GetBounds(it: ChildIterator, dim: nat): (b: Box)
    requires ValidBox(it.bounds, dim) && it.high >= 0
    ensures ValidBox(b, dim) && Inside(b, it.bounds, dim)
    ensures forall i :: 0 <= i < dim ==>
              b.bmax[i] - b.bmin[i] == 0.5 * (it.bounds.bmax[i] - it.bounds.bmin[i])
  {
    var lo := it.bounds.bmin;
    var hi := it.bounds.bmax;
    Box(seq(dim, i requires 0 <= i < dim => if IsHigh(it.high, dim, i) then 0.5 * (hi[i] + lo[i]) else lo[i]),
        seq(dim, i requires 0 <= i < dim => if IsHigh(it.high, dim, i) then hi[i] else 0.5 * (hi[i] + lo[i])))
  }

  /** After `go_to(p)` the child's box holds `p` whenever the parent's box
      does: on every axis the chosen half is the one `p` lies in. */
  lemma {:induction false} GoToBoundsContain(it: ChildIterator, p: seq<real>, dim: nat)
    requires ValidBox(it.bounds, dim) && |p| == dim && it.high >= 0
    requires Contains(it.bounds, p)
    requires forall i :: 0 <= i < dim ==> (IsHigh(it.high, dim, i) <==> p[i] >= Mid(it.bounds, i))
    ensures Contains(GetBounds(it, dim), p)
  {
    var b := GetBounds(it, dim);
    forall i | 0 <= i < dim
      ensures b.bmin[i] <= p[i] < b.bmax[i]
    {
      assert Mid(it.bounds, i) == 0.5 * (it.bounds.bmax[i] + it.bounds.bmin[i]);
    }
  }

  // ---------------------------------------------------------------------
  // Queries
  // ---------------------------------------------------------------------

  /** `get_children()`: the iterator over the root's children, in the
      root box. */
  method GetRootChildren(tree: Octree, rootBounds: Box, dim: nat) returns (it: ChildIterator)
    requires WellFormed(NumChildren(dim), tree)
    ensures Walks(tree.nodes, it, 0, dim) && it.bounds == rootBounds
    ensures forall j :: 0 <= j < it.index ==> tree.nodes[j] == Empty
  {
    it := NewChildIterator(tree.nodes, 0, rootBounds, dim);
  }

  /** `get_children(ci)`: the iterator over the children of the internal
      node `ci` points at, in that node's box. The source asserts that the
      node is not a leaf. */
  method GetChildren(tree: Octree, ci: ChildIterator, dim: nat) returns (it: ChildIterator)
    requires WellFormed(NumChildren(dim), tree)
    requires ValidBox(ci.bounds, dim) && ci.high >= 0
    requires 0 <= ci.index < |tree.nodes| && tree.nodes[ci.index].Internal?
    ensures Walks(tree.nodes, it, tree.nodes[ci.index].children, dim)
    ensures it.bounds == GetBounds(ci, dim)
    ensures it.index > ci.index
  {
    var o := tree.nodes[ci.index].children;
    it := NewChildIterator(tree.nodes, o, GetBounds(ci, dim), dim);
  }

  /** `steps` is a descent by `p` from the root: step 0 is the child of
      the root block that `go_to(p)` picks in the root box; each later step
      is the child that `go_to(p)` picks in the block of the previous,
      internal, slot, with the box `get_bounds` gives that slot. Every step
      but the last is internal. */
  ghost predicate DescentPrefix(nodes: seq<Slot>, rootBounds: Box, p: seq<real>, dim: nat,
                                steps: seq<ChildIterator>)
  {
    && |p| == dim && |steps| > 0
    && (forall k :: 0 <= k < |steps| ==>
          && ValidBox(steps[k].bounds, dim)
          && steps[k].high == HighBits(steps[k].bounds, p, dim)
          && 0 <= steps[k].index < |nodes|)
    && steps[0].bounds == rootBounds && steps[0].index == steps[0].high
    && (forall k :: 0 <= k < |steps| - 1 ==>
          && nodes[steps[k].index].Internal?
          && steps[k + 1].index == nodes[steps[k].index].children + steps[k + 1].high
          && steps[k + 1].bounds == GetBounds(steps[k], dim))
  }

  /** A complete descent: it stops at the first slot that is not internal. */
  ghost predicate Descent(nodes: seq<Slot>, rootBounds: Box, p: seq<real>, dim: nat,
                          steps: seq<ChildIterator>)
  {
    && DescentPrefix(nodes, rootBounds, p, dim, steps)
    && !nodes[steps[|steps| - 1].index].Internal?
  }

  /** Two descents by the same point agree on every step they both have. */
  lemma {:induction false} DescentPrefixAgree(nodes: seq<Slot>, rootBounds: Box, p: seq<real>, dim: nat,
                                              a: seq<ChildIterator>, b: seq<ChildIterator>, k: nat)
    requires DescentPrefix(nodes, rootBounds, p, dim, a)
    requires DescentPrefix(nodes, rootBounds, p, dim, b)
    requires k < |a| && k < |b|
    ensures a[k] == b[k]
  {
    if k > 0 {
      DescentPrefixAgree(nodes, rootBounds, p, dim, a, b, k - 1);
    }
  }

  /** The descent by a point is unique: the bucket and box `get_bucket`
      returns are determined by the tree, the root box and the point. */
  lemma {:induction false} DescentUnique(nodes: seq<Slot>, rootBounds: Box, p: seq<real>, dim: nat,
                                         a: seq<ChildIterator>, b: seq<ChildIterator>)
    requires Descent(nodes, rootBounds, p, dim, a)
    requires Descent(nodes, rootBounds, p, dim, b)
    ensures a == b
  {
    if |a| < |b| {
      DescentPrefixAgree(nodes, rootBounds, p, dim, a, b, |a| - 1);
      assert false;
    } else if |b| < |a| {
      DescentPrefixAgree(nodes, rootBounds, p, dim, a, b, |b| - 1);
      assert false;
    } else {
      forall k | 0 <= k < |a|
        ensures a[k] == b[k]
      {
        DescentPrefixAgree(nodes, rootBounds, p, dim, a, b, k);
      }
    }
  }

  /** `get_bucket(position)`: from the root, `go_to` the child whose box
      holds the position and descend while the slot reached is internal.
      The result is the last step of the descent by `p` (which is unique,
      `DescentUnique`) and that step's box, which holds the position. */
  method GetBucket(tree: Octree, rootBounds: Box, p: seq<real>, dim: nat)
    returns (bucket: nat, bounds: Box, ghost steps: seq<ChildIterator>)
    requires WellFormed(NumChildren(dim), tree)
    requires ValidBox(rootBounds, dim) && |p| == dim && Contains(rootBounds, p)
    ensures Descent(tree.nodes, rootBounds, p, dim, steps)
    ensures bucket == steps[|steps| - 1].index && bounds == GetBounds(steps[|steps| - 1], dim)
    ensures bucket < |tree.nodes| && !tree.nodes[bucket].Internal?
    ensures ValidBox(bounds, dim) && Contains(bounds, p) && Inside(bounds, rootBounds, dim)
  {
    var i := GetRootChildren(tree, rootBounds, dim);
    i := GoTo(i, p, dim);
    GoToBoundsContain(i, p, dim);
    ghost var start := 0;
    steps := [i];
    while tree.nodes[i.index].Internal?
      invariant 0 <= start && start + Pow2(dim) <= |tree.nodes|
      invariant 0 <= i.high < Pow2(dim) && i.index == start + i.high
      invariant ValidBox(i.bounds, dim) && Inside(i.bounds, rootBounds, dim)
      invariant forall k :: 0 <= k < dim ==> (IsHigh(i.high, dim, k) <==> p[k] >= Mid(i.bounds, k))
      invariant Contains(GetBounds(i, dim), p)
      invariant DescentPrefix(tree.nodes, rootBounds, p, dim, steps) && steps[|steps| - 1] == i
      decreases |tree.nodes| - i.index
    {
      var o := tree.nodes[i.index].children;
      var child := GetChildren(tree, i, dim);
      start := o;
      assert Contains(child.bounds, p);
      i := GoTo(child, p, dim);
      GoToBoundsContain(i, p, dim);
      DescentExtend(tree.nodes, rootBounds, p, dim, steps, i);
      steps := steps + [i];
    }
    bucket := i.index;
    bounds := GetBounds(i, dim);
  }

  /** A descent whose last slot is internal extends by the child `go_to`
      picks in that slot's block and box. */
  lemma {:induction false} DescentExtend(nodes: seq<Slot>, rootBounds: Box, p: seq<real>, dim: nat,
                                         steps: seq<ChildIterator>, next: ChildIterator)
    requires DescentPrefix(nodes, rootBounds, p, dim, steps)
    requires nodes[steps[|steps| - 1].index].Internal?
    requires ValidBox(next.bounds, dim) && next.high == HighBits(next.bounds, p, dim)
    requires 0 <= next.index < |nodes|
    requires next.index == nodes[steps[|steps| - 1].index].children + next.high
    requires next.bounds == GetBounds(steps[|steps| - 1], dim)
    ensures DescentPrefix(nodes, rootBounds, p, dim, steps + [next])
  {
    var s := steps + [next];
    forall k | 0 <= k < |s| - 1
      ensures && nodes[s[k].index].Internal?
              && s[k + 1].index == nodes[s[k].index].children + s[k + 1].high
              && s[k + 1].bounds == GetBounds(s[k], dim)
    {
      if k < |steps| - 1 {
        assert s[k] == steps[k] && s[k + 1] == steps[k + 1];
      }
    }
  }

  /** `get_bucket_particles(bucket)`: the particle range of a leaf bucket.
      The source asserts that the bucket is a leaf. */
  function GetBucketParticles(tree: Octree, bucket: nat): (r: Range)
    requires bucket < |tree.nodes| && tree.nodes[bucket].Leaf?
    requires tree.nodes[bucket].leaf < |tree.leaves|
  {
    tree.leaves[tree.nodes[bucket].leaf]
  }

  /** In a built tree the particles of a leaf bucket are exactly the
      particles whose tags fall in the leaf's tag interval. */
  lemma {:induction false} BucketParticlesMatchTags(cfg: Config, tags: seq<int>, tree: Octree,
                                                    s: nat, t: int, level: int, i: int)
    requires Sorted(tags)
    requires cfg.dim >= 1 && 1 <= level <= cfg.maxLevel && s < |tree.nodes|
    requires SlotCorrect(cfg, tags, tree, s, t, level)
    requires tree.nodes[s].Leaf?
    ensures tree.nodes[s].leaf < |tree.leaves|
    ensures var r := GetBucketParticles(tree, s);
            r.lo <= i < r.hi
            <==> 0 <= i < |tags| && t <= tags[i] < t + SubtreeLength(cfg.dim, cfg.maxLevel, level)
  {
    var rg := NodeRange(cfg, tags, t, level);
    assert tree.nodes[s].leaf < |tree.leaves| && tree.leaves[tree.nodes[s].leaf] == rg;
    LowerBoundRange(tags, t, t + SubtreeLength(cfg.dim, cfg.maxLevel, level), i);
  }
}
