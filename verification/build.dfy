/** `octtree::build_tree`: the level-by-level construction of the flat octree
    over the sorted particle tags.

    The tree is two flat arrays. `nodes` holds one slot per child of every
    internal node; the 2^D children of one internal node are contiguous, the
    children of the (implicit) root at offset 0. `leaves` holds the `[lo, hi)`
    particle range of every leaf. The library packs a slot into one `int`
    with sentinel values; here a slot is a tagged variant. */
module OctTreeBuild {
  import opened Results
  import opened Search
  import opened Morton

  /** Template and run-time parameters of the builder: the dimension `D`,
      `m_max_level` and the leaf threshold `m_n_particles_in_leaf`. */
  datatype Config = Config(dim: nat, maxLevel: int, threshold: int)

  /** `detail::EMPTY`, `detail::LEAF`, `detail::NODE`. */
  datatype Kind = EmptyKind | LeafKind | NodeKind

  /** One entry of `m_nodes`: no particles, a leaf (offset into `leaves`), or
      an internal node (offset of its block of 2^D child slots). */
  datatype Slot = Empty | Leaf(leaf: nat) | Internal(children: nat)

  /** One entry of `m_leaves`: the particle range `[lo, hi)`. */
  datatype Range = Range(lo: nat, hi: nat)

  datatype Octree = Octree(nodes: seq<Slot>, leaves: seq<Range>)

  /** The fatal `ASSERT(level <= m_max_level)` of the level loop. */
  datatype BuildError = TreeTooDeep

  // ---------------------------------------------------------------------
  // Per-child steps
  // ---------------------------------------------------------------------

  /** `classify_node`: a child without particles is EMPTY; one with at most
      `threshold` particles, or any non-empty child on the last level, is a
      LEAF; every other child is a NODE to be split further. */
  function ClassifyNode(lower: int, upper: int, threshold: int, lastLevel: bool): (k: Kind)
    ensures k == EmptyKind <==> upper - lower == 0
    ensures k == LeafKind <==> upper - lower != 0 && (lastLevel || upper - lower <= threshold)
    ensures k == NodeKind <==> upper - lower != 0 && !lastLevel && upper - lower > threshold
  {
    var count := upper - lower;
    if count == 0 then EmptyKind
    else if lastLevel || count <= threshold then LeafKind
    else NodeKind
  }

  /** `write_nodes`: the slot of one child. `numNodes` is the size of the
      node array after this level's children were appended, `numLeaves` the
      size of the leaf array before this level's leaves are appended;
      `nodeIdx`/`leafIdx` are the child's exclusive-scan numbers. */
  function WriteNode(kind: Kind, nodeIdx: nat, leafIdx: nat, numNodes: nat, numLeaves: nat,
                     nchild: nat): (r: Slot)
  {
    match kind
    case EmptyKind => Empty
    case LeafKind => Leaf(numLeaves + leafIdx)
    case NodeKind => Internal(numNodes + nchild * nodeIdx)
  }

  // ---------------------------------------------------------------------
  // Counting, scans and compaction (sequential specifications of the
  // parallel primitives)
  // ---------------------------------------------------------------------

  /** How many entries of `ks` are of kind `k`. */
  function CountKind(ks: seq<Kind>, k: Kind): (n: nat)
    ensures n <= |ks|
  {
    if |ks| == 0 then 0
    else CountKind(ks[..|ks| - 1], k) + (if ks[|ks| - 1] == k then 1 else 0)
  }

  lemma {:induction false} CountKindPrefix(ks: seq<Kind>, k: Kind, i: nat)
    requires i < |ks|
    ensures CountKind(ks[..i + 1], k) == CountKind(ks[..i], k) + (if ks[i] == k then 1 else 0)
  {
    assert ks[..i + 1][..i] == ks[..i];
  }

  /** The count is the multiplicity of the kind among the entries. */
  lemma {:induction false} CountKindMultiplicity(ks: seq<Kind>, k: Kind)
    ensures CountKind(ks, k) == multiset(ks)[k]
  {
    if |ks| > 0 {
      var m := |ks| - 1;
      CountKindMultiplicity(ks[..m], k);
      assert ks == ks[..m] + [ks[m]];
    }
  }

  ghost predicate IsExclusiveScan(scan: seq<nat>, ks: seq<Kind>, k: Kind)
  {
    |scan| == |ks| && forall i :: 0 <= i < |ks| ==> scan[i] == CountKind(ks[..i], k)
  }

  /** `transform_exclusive_scan(kinds, is_a<k>, 0, plus)`: entry `i` is the
      number of children of kind `k` before child `i`. */
  method ExclusiveScan(ks: seq<Kind>, k: Kind) returns (scan: seq<nat>)
    ensures |scan| == |ks|
    ensures forall i :: 0 <= i < |ks| ==> scan[i] == CountKind(ks[..i], k)
  {
    scan := [];
    var running := 0;
    var i := 0;
    while i < |ks|
      invariant 0 <= i <= |ks|
      invariant |scan| == i
      invariant running == CountKind(ks[..i], k)
      invariant forall j :: 0 <= j < i ==> scan[j] == CountKind(ks[..j], k)
    {
      scan := scan + [running];
      CountKindPrefix(ks, k, i);
      if ks[i] == k {
        running := running + 1;
      }
      i := i + 1;
    }
  }

  /** `num_nodes_on_this_level` / `num_leaves_on_this_level`: the last scan
      value plus one if the last child is of that kind, which is the number
      of children of that kind on the level. */
  function LevelCount(scan: seq<nat>, ks: seq<Kind>, k: Kind): (n: nat)
    requires |ks| > 0
    requires IsExclusiveScan(scan, ks, k)
    ensures n == CountKind(ks, k)
  {
    assert ks[..|ks| - 1] == ks[..|ks| - 1];
    assert ks == ks[..|ks|];
    scan[|ks| - 1] + (if ks[|ks| - 1] == k then 1 else 0)
  }

  /** The entries of `xs` whose kind is `k`, in order: the sequential
      specification of `copy_if` and of `scatter_if` on scan positions. */
  function Compact<T>(xs: seq<T>, ks: seq<Kind>, k: Kind): (r: seq<T>)
    requires |xs| == |ks|
    ensures |r| == CountKind(ks, k)
  {
    if |xs| == 0 then []
    else Compact(xs[..|xs| - 1], ks[..|ks| - 1], k)
         + (if ks[|ks| - 1] == k then [xs[|xs| - 1]] else [])
  }

  /** A child of kind `k` lands at its scan number in the compacted array. */
  lemma {:induction false} CompactAt<T>(xs: seq<T>, ks: seq<Kind>, k: Kind, i: nat)
    requires |xs| == |ks|
    requires i < |ks| && ks[i] == k
    ensures CountKind(ks[..i], k) < |Compact(xs, ks, k)|
    ensures Compact(xs, ks, k)[CountKind(ks[..i], k)] == xs[i]
  {
    var n := |xs|;
    var front := Compact(xs[..n - 1], ks[..n - 1], k);
    if i == n - 1 {
      assert ks[..i] == ks[..n - 1];
      assert Compact(xs, ks, k) == front + [xs[i]];
    } else {
      CompactAt(xs[..n - 1], ks[..n - 1], k, i);
      assert ks[..n - 1][..i] == ks[..i];
      assert Compact(xs, ks, k)[..|front|] == front;
    }
  }

  lemma {:induction false} CompactPrefix<T>(xs: seq<T>, ks: seq<Kind>, k: Kind, i: nat)
    requires |xs| == |ks| && i < |ks|
    ensures Compact(xs[..i + 1], ks[..i + 1], k)
            == Compact(xs[..i], ks[..i], k) + (if ks[i] == k then [xs[i]] else [])
  {
    assert xs[..i + 1][..i] == xs[..i];
    assert ks[..i + 1][..i] == ks[..i];
  }

  /** `scatter_if(make_leaf(lower, upper), leaves_on_this_level, kinds, is_a<LEAF>)`
      into a fresh block of `numLeaves` entries: every LEAF child's range is
      written at its leaf scan number. The written block is the LEAF ranges
      in child order. */
  method ScatterLeaves(ranges: seq<Range>, ks: seq<Kind>, leafScan: seq<nat>, numLeaves: nat)
    returns (block: seq<Range>)
    requires |ranges| == |ks|
    requires IsExclusiveScan(leafScan, ks, LeafKind)
    requires numLeaves == CountKind(ks, LeafKind)
    ensures block == Compact(ranges, ks, LeafKind)
  {
    block := seq(numLeaves, _ => Range(0, 0));
    var i := 0;
    while i < |ks|
      invariant 0 <= i <= |ks|
      invariant |block| == numLeaves
      invariant CountKind(ks[..i], LeafKind) <= numLeaves
      invariant block[..CountKind(ks[..i], LeafKind)] == Compact(ranges[..i], ks[..i], LeafKind)
    {
      CountKindPrefix(ks, LeafKind, i);
      CompactPrefix(ranges, ks, LeafKind, i);
      CountKindMonotone(ks, LeafKind, i + 1, |ks|);
      assert ks[..|ks|] == ks;
      if ks[i] == LeafKind {
        block := block[leafScan[i] := ranges[i]];
      }
      i := i + 1;
    }
    assert ks[..i] == ks && ranges[..i] == ranges;
  }

  lemma {:induction false} CountKindMonotone(ks: seq<Kind>, k: Kind, i: nat, j: nat)
    requires i <= j <= |ks|
    ensures CountKind(ks[..i], k) <= CountKind(ks[..j], k)
  {
    if i < j {
      CountKindMonotone(ks, k, i, j - 1);
      CountKindPrefix(ks, k, j - 1);
    }
  }

  // ---------------------------------------------------------------------
  // Children of the active nodes and their particle ranges
  // ---------------------------------------------------------------------

  lemma {:induction false} DivBound(idx: int, n: int, m: int)
    requires 0 <= idx < n * m && n > 0
    ensures 0 <= idx / n < m
    ensures 0 <= idx % n < n
    ensures n * (idx / n) + idx % n == idx
  {
  }

  lemma {:induction false} MulSign(n: int, d: int)
    requires n > 0
    ensures d >= 1 ==> n * d >= n
    ensures d <= -1 ==> n * d <= -n
  {
  }

  /** The 2^D children of the node whose first tag is `x`, in child-number
      order. */
  function ChildBlock(cfg: Config, x: int, level: int): (block: seq<int>)
    requires level <= cfg.maxLevel
    ensures |block| == NumChildren(cfg.dim)
  {
    seq(NumChildren(cfg.dim), c requires 0 <= c < NumChildren(cfg.dim) =>
      ChildTagMask(x, c, level, cfg.maxLevel, cfg.dim))
  }

  /** Reference definition of a level's children: the child blocks of the
      active nodes, one after the other. */
  function ChildMasks(cfg: Config, active: seq<int>, level: int): (children: seq<int>)
    requires level <= cfg.maxLevel && cfg.dim >= 1
    ensures |children| == NumChildren(cfg.dim) * |active|
  {
    if |active| == 0 then []
    else
      var m := |active| - 1;
      assert NumChildren(cfg.dim) * (m + 1) == NumChildren(cfg.dim) * m + NumChildren(cfg.dim);
      ChildMasks(cfg, active[..m], level) + ChildBlock(cfg, active[m], level)
  }

  /** The children of active node `j` occupy positions
      `[nchild * j, nchild * (j + 1))` of the level, in child-number order. */
  lemma {:induction false} ChildMasksAt(cfg: Config, active: seq<int>, level: int, j: nat, c: nat)
    requires level <= cfg.maxLevel && cfg.dim >= 1
    requires j < |active| && c < NumChildren(cfg.dim)
    ensures NumChildren(cfg.dim) * j + c < |ChildMasks(cfg, active, level)|
    ensures ChildMasks(cfg, active, level)[NumChildren(cfg.dim) * j + c]
            == ChildTagMask(active[j], c, level, cfg.maxLevel, cfg.dim)
  {
    var n := NumChildren(cfg.dim);
    var m := |active| - 1;
    var front := ChildMasks(cfg, active[..m], level);
    var block := ChildBlock(cfg, active[m], level);
    assert ChildMasks(cfg, active, level) == front + block;
    if j < m {
      ChildMasksAt(cfg, active[..m], level, j, c);
      assert (front + block)[n * j + c] == front[n * j + c];
    } else {
      assert (front + block)[n * m + c] == block[c];
    }
  }

  /** `tabulate(children, child_index_to_tag_mask(level, max_level, active))`:
      child number `idx` of the level is child `idx & (nchild-1)` of active
      node `idx / nchild`. For a non-negative index and a power-of-two
      `nchild` the mask is the remainder. The index arithmetic lands every
      child in its node's block. */
  method TabulateChildMasks(cfg: Config, active: seq<int>, level: int) returns (children: seq<int>)
    requires level <= cfg.maxLevel && cfg.dim >= 1
    ensures children == ChildMasks(cfg, active, level)
  {
    var n := NumChildren(cfg.dim);
    ghost var spec := ChildMasks(cfg, active, level);
    children := [];
    var idx := 0;
    while idx < n * |active|
      invariant 0 <= idx <= n * |active|
      invariant children == spec[..idx]
    {
      DivBound(idx, n, |active|);
      var j, c := idx / n, idx % n;
      ChildMasksAt(cfg, active, level, j, c);
      assert spec[idx] == ChildTagMask(active[j], c, level, cfg.maxLevel, cfg.dim);
      children := children + [ChildTagMask(active[j], c, level, cfg.maxLevel, cfg.dim)];
      idx := idx + 1;
    }
    assert spec[..idx] == spec;
  }

  /** The particle range of the node whose first tag is `t` at `level`:
      `[lower_bound(t), upper_bound(t + length))` with
      `length = SubtreeLength(level) - 1`. */
  function NodeRange(cfg: Config, tags: seq<int>, t: int, level: int): (r: Range)
    requires level <= cfg.maxLevel
  {
    Range(LowerBound(tags, t), LowerBound(tags, t + SubtreeLength(cfg.dim, cfg.maxLevel, level)))
  }

  /** The particle ranges of the 2^D children of a node are ordered and
      adjacent: each is a well-formed range, each ends where the next one
      begins, and together they run from the parent's first particle to
      its last. */
  lemma {:induction false} SiblingRangesAdjacent(cfg: Config, tags: seq<int>, x: int, level: int, c: nat)
    requires cfg.dim >= 1 && 1 <= level <= cfg.maxLevel && c < NumChildren(cfg.dim)
    ensures var r := NodeRange(cfg, tags, ChildTagMask(x, c, level, cfg.maxLevel, cfg.dim), level);
            r.lo <= r.hi
    ensures c + 1 < NumChildren(cfg.dim) ==>
              NodeRange(cfg, tags, ChildTagMask(x, c, level, cfg.maxLevel, cfg.dim), level).hi
              == NodeRange(cfg, tags, ChildTagMask(x, c + 1, level, cfg.maxLevel, cfg.dim), level).lo
    ensures NodeRange(cfg, tags, ChildTagMask(x, 0, level, cfg.maxLevel, cfg.dim), level).lo
            == NodeRange(cfg, tags, x, level - 1).lo
    ensures c + 1 == NumChildren(cfg.dim) ==>
              NodeRange(cfg, tags, ChildTagMask(x, c, level, cfg.maxLevel, cfg.dim), level).hi
              == NodeRange(cfg, tags, x, level - 1).hi
  {
    var len := SubtreeLength(cfg.dim, cfg.maxLevel, level);
    var m := ChildTagMask(x, c, level, cfg.maxLevel, cfg.dim);
    ChildIntervalsTile(x, c, level, cfg.maxLevel, cfg.dim);
    LowerBoundMonotone(tags, m, m + len);
  }

  function NodeRanges(cfg: Config, tags: seq<int>, ts: seq<int>, level: int): (rs: seq<Range>)
    requires level <= cfg.maxLevel
    ensures |rs| == |ts|
  {
    seq(|ts|, i requires 0 <= i < |ts| => NodeRange(cfg, tags, ts[i], level))
  }

  function Kinds(cfg: Config, rs: seq<Range>, level: int): (ks: seq<Kind>)
    ensures |ks| == |rs|
  {
    seq(|rs|, i requires 0 <= i < |rs| =>
      ClassifyNode(rs[i].lo, rs[i].hi, cfg.threshold, level == cfg.maxLevel))
  }

  /** Steps 2 of the level: `lower_bound` of every mask and `upper_bound` of
      every `mask + length`. */
  method ChildIntervals(tags: seq<int>, children: seq<int>, length: int)
    returns (lower: seq<nat>, upper: seq<nat>)
    requires Sorted(tags)
    ensures |lower| == |children| && |upper| == |children|
    ensures forall i :: 0 <= i < |children| ==>
              lower[i] == LowerBound(tags, children[i])
              && upper[i] == LowerBound(tags, children[i] + length + 1)
  {
    lower, upper := [], [];
    var i := 0;
    while i < |children|
      invariant 0 <= i <= |children|
      invariant |lower| == i && |upper| == i
      invariant forall j :: 0 <= j < i ==>
                  lower[j] == LowerBound(tags, children[j])
                  && upper[j] == LowerBound(tags, children[j] + length + 1)
    {
      var lo := LowerBoundSearch(tags, children[i]);
      var hi := UpperBoundSearch(tags, children[i] + length);
      lower, upper := lower + [lo], upper + [hi];
      i := i + 1;
    }
  }

  // ---------------------------------------------------------------------
  // One level of the build
  // ---------------------------------------------------------------------

  /** The slots `write_nodes` produces for one level, numbered by counting. */
  function LevelSlots(kinds: seq<Kind>, nodesSize: nat, leavesSize: nat, nchild: nat)
    : (slots: seq<Slot>)
    ensures |slots| == |kinds|
  {
    seq(|kinds|, i requires 0 <= i < |kinds| =>
      WriteNode(kinds[i], CountKind(kinds[..i], NodeKind), CountKind(kinds[..i], LeafKind),
                nodesSize, leavesSize, nchild))
  }

  /** Reference definition of one pass of the level loop: the tree and the
      next active set after the children of `active` (first tags of the
      internal nodes of the previous level) are classified and appended. */
  function LevelStep(cfg: Config, tags: seq<int>, t: Octree, active: seq<int>, level: int)
    : (r: (Octree, seq<int>))
    requires cfg.dim >= 1 && 1 <= level <= cfg.maxLevel
  {
    var children := ChildMasks(cfg, active, level);
    var ranges := NodeRanges(cfg, tags, children, level);
    Assemble(t, children, ranges, Kinds(cfg, ranges, level), NumChildren(cfg.dim))
  }

  /** Steps 5 to 7 of a pass, given the children, their ranges and kinds:
      the extended arrays and the next active set. */
  function Assemble(t: Octree, children: seq<int>, ranges: seq<Range>, kinds: seq<Kind>, nchild: nat)
    : (r: (Octree, seq<int>))
    requires |children| == |ranges| == |kinds|
  {
    (Octree(t.nodes + LevelSlots(kinds, |t.nodes| + |children|, |t.leaves|, nchild),
            t.leaves + Compact(ranges, kinds, LeafKind)),
     Compact(children, kinds, NodeKind))
  }

  /** `make_leaf` over the zipped bounds: the `[lower, upper)` pair of every
      child. */
  function MakeLeaves(lower: seq<nat>, upper: seq<nat>): (ranges: seq<Range>)
    requires |lower| == |upper|
    ensures |ranges| == |lower|
    ensures forall i :: 0 <= i < |lower| ==> ranges[i] == Range(lower[i], upper[i])
  {
    seq(|lower|, i requires 0 <= i < |lower| => Range(lower[i], upper[i]))
  }

  /** `write_nodes` over the zipped kinds and scans. */
  function WriteNodes(kinds: seq<Kind>, nodeScan: seq<nat>, leafScan: seq<nat>,
                      nodesSize: nat, leavesSize: nat, nchild: nat): (slots: seq<Slot>)
    requires |nodeScan| == |kinds| && |leafScan| == |kinds|
    ensures |slots| == |kinds|
  {
    seq(|kinds|, i requires 0 <= i < |kinds| =>
      WriteNode(kinds[i], nodeScan[i], leafScan[i], nodesSize, leavesSize, nchild))
  }

  /** With exclusive scans as numbers, `write_nodes` numbers every NODE and
      LEAF child by the count of its kind before it. */
  lemma {:induction false} WriteNodesByCount(kinds: seq<Kind>, nodeScan: seq<nat>, leafScan: seq<nat>,
                          nodesSize: nat, leavesSize: nat, nchild: nat)
    requires IsExclusiveScan(nodeScan, kinds, NodeKind)
    requires IsExclusiveScan(leafScan, kinds, LeafKind)
    ensures WriteNodes(kinds, nodeScan, leafScan, nodesSize, leavesSize, nchild)
            == LevelSlots(kinds, nodesSize, leavesSize, nchild)
  {
    var a := WriteNodes(kinds, nodeScan, leafScan, nodesSize, leavesSize, nchild);
    var b := LevelSlots(kinds, nodesSize, leavesSize, nchild);
    forall i | 0 <= i < |kinds|
      ensures a[i] == b[i]
    {
    }
  }

  /** The searched bounds of every child are its node range. */
  lemma {:induction false} IntervalsAreNodeRanges(cfg: Config, tags: seq<int>, children: seq<int>, level: int,
                               ranges: seq<Range>)
    requires level <= cfg.maxLevel
    requires |ranges| == |children|
    requires forall i :: 0 <= i < |children| ==>
               ranges[i] == Range(LowerBound(tags, children[i]),
                                  LowerBound(tags, children[i]
                                    + (SubtreeLength(cfg.dim, cfg.maxLevel, level) - 1) + 1))
    ensures ranges == NodeRanges(cfg, tags, children, level)
  {
    var spec := NodeRanges(cfg, tags, children, level);
    forall i | 0 <= i < |children|
      ensures ranges[i] == spec[i]
    {
    }
  }

  /** One pass of the `build_tree` level loop, steps 1 to 7 in the library's
      order, with the parallel primitives run sequentially. */
  method BuildLevel(cfg: Config, tags: seq<int>, t: Octree, active: seq<int>, level: int)
    returns (t': Octree, active': seq<int>)
    requires cfg.dim >= 1 && 1 <= level <= cfg.maxLevel
    requires |active| > 0
    requires Sorted(tags)
    ensures (t', active') == LevelStep(cfg, tags, t, active, level)
  {
    var nchild := NumChildren(cfg.dim);
    // 1. the tag masks of the 2^D children of every active node
    var children := TabulateChildMasks(cfg, active, level);
    // 2. the particle interval of every child
    var length := SubtreeLength(cfg.dim, cfg.maxLevel, level) - 1;
    var lower, upper := ChildIntervals(tags, children, length);
    var ranges := MakeLeaves(lower, upper);
    IntervalsAreNodeRanges(cfg, tags, children, level, ranges);
    // 3. empty / leaf / node
    var kinds := Kinds(cfg, ranges, level);
    // 4. enumerate nodes and leaves
    var nodeScan := ExclusiveScan(kinds, NodeKind);
    var leafScan := ExclusiveScan(kinds, LeafKind);
    var numNodes := LevelCount(nodeScan, kinds, NodeKind);
    var numLeaves := LevelCount(leafScan, kinds, LeafKind);
    // 5. append the children to the node array
    var nodesSize := |t.nodes| + |children|;
    var slots := WriteNodes(kinds, nodeScan, leafScan, nodesSize, |t.leaves|, nchild);
    WriteNodesByCount(kinds, nodeScan, leafScan, nodesSize, |t.leaves|, nchild);
    // 6. append the leaf children to the leaf array
    var block := ScatterLeaves(ranges, kinds, leafScan, numLeaves);
    // 7. the internal children are the next active set
    active' := Compact(children, kinds, NodeKind);
    t' := Octree(t.nodes + slots, t.leaves + block);
    LevelStepParts(cfg, tags, t, active, level, children, ranges, kinds);
  }

  // ---------------------------------------------------------------------
  // What a built tree is: the octree of the tags
  // ---------------------------------------------------------------------

  /** Every leaf offset and every child block lies inside the arrays, and a
      child block always follows the slot that points to it. */
  ghost predicate WellFormed(nchild: nat, tree: Octree)
  {
    && nchild <= |tree.nodes|
    && forall s :: 0 <= s < |tree.nodes| ==>
         match tree.nodes[s]
         case Empty => true
         case Leaf(k) => k < |tree.leaves|
         case Internal(o) => s < o && o + nchild <= |tree.nodes|
  }

  /** The block of 2^D slots at `o` holds exactly the children, at `level`,
      of the node whose first tag is `t`. */
  ghost predicate BlockCorrect(cfg: Config, tags: seq<int>, tree: Octree, o: nat, t: int, level: int)
    requires cfg.dim >= 1 && 1 <= level <= cfg.maxLevel
    decreases cfg.maxLevel - level, 1
  {
    && o + NumChildren(cfg.dim) <= |tree.nodes|
    && forall c :: 0 <= c < NumChildren(cfg.dim) ==>
         SlotCorrect(cfg, tags, tree, o + c, ChildTagMask(t, c, level, cfg.maxLevel, cfg.dim), level)
  }

  /** Slot `s` stands for the node whose first tag is `t` at `level`: it is
      EMPTY, LEAF or internal as `classify_node` says of that node's particle
      range, a leaf slot points at that range, and an internal slot points,
      further down the array, at a block holding the node's own children. */
  ghost predicate SlotCorrect(cfg: Config, tags: seq<int>, tree: Octree, s: nat, t: int, level: int)
    requires cfg.dim >= 1 && 1 <= level <= cfg.maxLevel && s < |tree.nodes|
    decreases cfg.maxLevel - level, 0
  {
    var rg := NodeRange(cfg, tags, t, level);
    var kind := ClassifyNode(rg.lo, rg.hi, cfg.threshold, level == cfg.maxLevel);
    match tree.nodes[s]
    case Empty => kind == EmptyKind
    case Leaf(k) => kind == LeafKind && k < |tree.leaves| && tree.leaves[k] == rg
    case Internal(o) => kind == NodeKind && s < o && BlockCorrect(cfg, tags, tree, o, t, level + 1)
  }

  // ---------------------------------------------------------------------
  // Loop invariant of the build
  // ---------------------------------------------------------------------

  function Repeat(n: nat, v: int): (r: seq<int>)
    ensures |r| == n && forall i :: 0 <= i < n ==> r[i] == v
  {
    seq(n, _ => v)
  }

  /** Partial-tree form of `SlotCorrect`, with every slot labelled by the
      first tag (`tagOf`) and level (`levelOf`) of its node. An internal slot
      of the last finished level points past the end of the array, at the
      block the next pass writes for its entry `j` of the active set. */
  ghost predicate SlotDescribed(cfg: Config, tags: seq<int>, t: Octree, tagOf: seq<int>,
                                levelOf: seq<int>, active: seq<int>, level: int, s: nat)
    requires cfg.dim >= 1
    requires |tagOf| == |t.nodes| && |levelOf| == |t.nodes| && s < |t.nodes|
  {
    var L := levelOf[s];
    var tg := tagOf[s];
    && 1 <= L < level && L <= cfg.maxLevel
    && var rg := NodeRange(cfg, tags, tg, L);
       var kind := ClassifyNode(rg.lo, rg.hi, cfg.threshold, L == cfg.maxLevel);
       match t.nodes[s]
       case Empty => kind == EmptyKind
       case Leaf(k) => kind == LeafKind && k < |t.leaves| && t.leaves[k] == rg
       case Internal(o) =>
         && kind == NodeKind
         && s < o
         && if o < |t.nodes| then
              && o + NumChildren(cfg.dim) <= |t.nodes|
              && forall u :: o <= u < o + NumChildren(cfg.dim) ==>
                   levelOf[u] == L + 1
                   && tagOf[u] == ChildTagMask(tg, u - o, L + 1, cfg.maxLevel, cfg.dim)
            else
              && L == level - 1
              && exists j :: 0 <= j < |active| && o == |t.nodes| + NumChildren(cfg.dim) * j
                             && active[j] == tg
  }

  ghost predicate AllSlotsDescribed(cfg: Config, tags: seq<int>, t: Octree, tagOf: seq<int>,
                                    levelOf: seq<int>, active: seq<int>, level: int)
    requires cfg.dim >= 1
  {
    && |tagOf| == |t.nodes| && |levelOf| == |t.nodes|
    && forall s :: 0 <= s < |t.nodes| ==>
         SlotDescribed(cfg, tags, t, tagOf, levelOf, active, level, s)
  }

  /** The invariant of the level loop at the top of the pass for `level`. */
  ghost predicate BuildInvariant(cfg: Config, tags: seq<int>, t: Octree, tagOf: seq<int>,
                                 levelOf: seq<int>, active: seq<int>, level: int)
    requires cfg.dim >= 1 && 1 <= level <= cfg.maxLevel + 1
  {
    && |tagOf| == |t.nodes| && |levelOf| == |t.nodes|
    && AllSlotsDescribed(cfg, tags, t, tagOf, levelOf, active, level)
    && (level == 1 ==> |t.nodes| == 0 && |t.leaves| == 0 && active == [0])
    && (level > 1 ==>
          && NumChildren(cfg.dim) <= |t.nodes|
          && forall c :: 0 <= c < NumChildren(cfg.dim) ==>
               levelOf[c] == 1 && tagOf[c] == ChildTagMask(0, c, 1, cfg.maxLevel, cfg.dim))
    && (level == cfg.maxLevel + 1 ==> |active| == 0)
    && forall p :: Cover(t.leaves, p) + Cover(NodeRanges(cfg, tags, active, level - 1), p)
                   == Holds(RootRange(cfg, tags), p)
  }

  // ---------------------------------------------------------------------
  // Particle cover
  // ---------------------------------------------------------------------

  /** 1 when particle index `p` lies in the range `r`, else 0. */
  function Holds(r: Range, p: int): (n: nat)
    ensures n <= 1
  {
    if r.lo <= p < r.hi then 1 else 0
  }

  /** How many of the ranges `rs` hold particle `p`. */
  function Cover(rs: seq<Range>, p: int): (n: nat)
    ensures n <= |rs|
  {
    if |rs| == 0 then 0 else Cover(rs[..|rs| - 1], p) + Holds(rs[|rs| - 1], p)
  }

  /** The particles of the root node: from the lower bound of the first tag
      to the lower bound of one past the last tag. */
  function RootRange(cfg: Config, tags: seq<int>): (r: Range)
    requires cfg.maxLevel >= 0
  {
    Range(LowerBound(tags, 0), LowerBound(tags, TagLimit(cfg.dim, cfg.maxLevel)))
  }

  lemma {:induction false} CoverAppend(a: seq<Range>, b: seq<Range>, p: int)
    ensures Cover(a + b, p) == Cover(a, p) + Cover(b, p)
  {
    if |b| == 0 {
      assert a + b == a;
    } else {
      var m := |b| - 1;
      CoverAppend(a, b[..m], p);
      assert (a + b)[..|a + b| - 1] == a + b[..m];
    }
  }

  lemma {:induction false} NodeRangesAppend(cfg: Config, tags: seq<int>, a: seq<int>, b: seq<int>, level: int)
    requires level <= cfg.maxLevel
    ensures NodeRanges(cfg, tags, a + b, level)
            == NodeRanges(cfg, tags, a, level) + NodeRanges(cfg, tags, b, level)
  {
    var lhs := NodeRanges(cfg, tags, a + b, level);
    var rhs := NodeRanges(cfg, tags, a, level) + NodeRanges(cfg, tags, b, level);
    forall i | 0 <= i < |lhs|
      ensures lhs[i] == rhs[i]
    {
    }
  }

  lemma {:induction false} NodeRangesPrefix(cfg: Config, tags: seq<int>, ts: seq<int>, level: int, m: nat)
    requires level <= cfg.maxLevel && m <= |ts|
    ensures NodeRanges(cfg, tags, ts, level)[..m] == NodeRanges(cfg, tags, ts[..m], level)
  {
    var lhs := NodeRanges(cfg, tags, ts, level)[..m];
    var rhs := NodeRanges(cfg, tags, ts[..m], level);
    forall i | 0 <= i < m
      ensures lhs[i] == rhs[i]
    {
    }
  }

  /** Compaction commutes with taking node ranges. */
  lemma {:induction false} CompactNodeRanges(cfg: Config, tags: seq<int>, ts: seq<int>,
                                             ks: seq<Kind>, k: Kind, level: int)
    requires |ts| == |ks| && level <= cfg.maxLevel
    ensures NodeRanges(cfg, tags, Compact(ts, ks, k), level)
            == Compact(NodeRanges(cfg, tags, ts, level), ks, k)
  {
    if |ts| > 0 {
      var n := |ts| - 1;
      var rs := NodeRanges(cfg, tags, ts, level);
      CompactNodeRanges(cfg, tags, ts[..n], ks[..n], k, level);
      assert rs[..n] == NodeRanges(cfg, tags, ts[..n], level);
      var tail := if ks[n] == k then [ts[n]] else [];
      NodeRangesAppend(cfg, tags, Compact(ts[..n], ks[..n], k), tail, level);
    }
  }

  /** Splitting a level's children by kind loses and duplicates nothing:
      EMPTY children hold no particles, and every other child is either a
      leaf or an internal node. */
  lemma {:induction false} SplitByKind(rs: seq<Range>, ks: seq<Kind>, p: int)
    requires |rs| == |ks|
    requires forall i :: 0 <= i < |rs| && ks[i] == EmptyKind ==> rs[i].hi <= rs[i].lo
    ensures Cover(rs, p) == Cover(Compact(rs, ks, LeafKind), p) + Cover(Compact(rs, ks, NodeKind), p)
  {
    if |rs| > 0 {
      var n := |rs| - 1;
      var last := rs[n];
      SplitByKind(rs[..n], ks[..n], p);
      var leaves := Compact(rs[..n], ks[..n], LeafKind);
      var nodes := Compact(rs[..n], ks[..n], NodeKind);
      if ks[n] == LeafKind {
        assert Compact(rs, ks, LeafKind) == leaves + [last];
        assert Compact(rs, ks, NodeKind) == nodes;
        CoverAppend(leaves, [last], p);
      } else if ks[n] == NodeKind {
        assert Compact(rs, ks, LeafKind) == leaves;
        assert Compact(rs, ks, NodeKind) == nodes + [last];
        CoverAppend(nodes, [last], p);
      } else {
        assert Compact(rs, ks, LeafKind) == leaves;
        assert Compact(rs, ks, NodeKind) == nodes;
      }
    }
  }

  /** The first `m` children of a node cover the particles from the node's
      lower bound to the lower bound of child `m`. */
  lemma {:induction false} BlockPrefixCover(cfg: Config, tags: seq<int>, x: int, level: int, m: nat, p: int)
    requires cfg.dim >= 1 && 1 <= level <= cfg.maxLevel
    requires m <= NumChildren(cfg.dim)
    ensures Cover(NodeRanges(cfg, tags, ChildBlock(cfg, x, level)[..m], level), p)
            == Holds(Range(LowerBound(tags, x),
                           LowerBound(tags, ChildTagMask(x, m, level, cfg.maxLevel, cfg.dim))), p)
  {
    if m == 0 {
      assert ChildTagMask(x, 0, level, cfg.maxLevel, cfg.dim) == x;
    } else {
      var block := ChildBlock(cfg, x, level);
      var prev := ChildTagMask(x, m - 1, level, cfg.maxLevel, cfg.dim);
      var next := ChildTagMask(x, m, level, cfg.maxLevel, cfg.dim);
      var rs := NodeRanges(cfg, tags, block[..m], level);
      var a, b, c := LowerBound(tags, x), LowerBound(tags, prev), LowerBound(tags, next);
      assert Cover(rs[..m - 1], p) == Holds(Range(a, b), p) by {
        BlockPrefixCover(cfg, tags, x, level, m - 1, p);
        assert block[..m][..m - 1] == block[..m - 1];
        NodeRangesPrefix(cfg, tags, block[..m], level, m - 1);
      }
      ChildIntervalsTile(x, m - 1, level, cfg.maxLevel, cfg.dim);
      assert rs[m - 1] == Range(b, c);
      assert a <= b <= c by {
        ProductNonNegative(m - 1, SubtreeLength(cfg.dim, cfg.maxLevel, level));
        LowerBoundMonotone(tags, x, prev);
        LowerBoundMonotone(tags, prev, next);
      }
    }
  }

  /** A node's children together cover exactly the node's particles. */
  lemma {:induction false} BlockCover(cfg: Config, tags: seq<int>, x: int, level: int, p: int)
    requires cfg.dim >= 1 && 1 <= level <= cfg.maxLevel
    ensures Cover(NodeRanges(cfg, tags, ChildBlock(cfg, x, level), level), p)
            == Holds(NodeRange(cfg, tags, x, level - 1), p)
  {
    var n := NumChildren(cfg.dim);
    var block := ChildBlock(cfg, x, level);
    var hi := ChildTagMask(x, n, level, cfg.maxLevel, cfg.dim);
    assert Cover(NodeRanges(cfg, tags, block, level), p)
           == Holds(Range(LowerBound(tags, x), LowerBound(tags, hi)), p) by {
      assert block[..n] == block;
      BlockPrefixCover(cfg, tags, x, level, n, p);
    }
    assert hi == x + SubtreeLength(cfg.dim, cfg.maxLevel, level - 1) by {
      ChildIntervalsTile(x, 0, level, cfg.maxLevel, cfg.dim);
    }
  }

  /** The level's children of the active set are the children of all but
      the last active node, then the last node's block. */
  lemma {:induction false} ChildMasksSnoc(cfg: Config, tags: seq<int>, active: seq<int>, level: int, p: int)
    requires cfg.dim >= 1 && level <= cfg.maxLevel && |active| > 0
    ensures var m := |active| - 1;
            Cover(NodeRanges(cfg, tags, ChildMasks(cfg, active, level), level), p)
            == Cover(NodeRanges(cfg, tags, ChildMasks(cfg, active[..m], level), level), p)
               + Cover(NodeRanges(cfg, tags, ChildBlock(cfg, active[m], level), level), p)
  {
    var m := |active| - 1;
    var front := ChildMasks(cfg, active[..m], level);
    var block := ChildBlock(cfg, active[m], level);
    assert ChildMasks(cfg, active, level) == front + block;
    NodeRangesAppend(cfg, tags, front, block, level);
    CoverAppend(NodeRanges(cfg, tags, front, level), NodeRanges(cfg, tags, block, level), p);
  }

  /** The children of the active nodes cover exactly the particles of the
      active nodes: each node's 2^D child intervals tile its own interval,
      and on sorted tags the lower bounds of adjacent intervals meet. */
  lemma {:induction false} LevelTelescope(cfg: Config, tags: seq<int>, active: seq<int>, level: int, p: int)
    requires cfg.dim >= 1 && 1 <= level <= cfg.maxLevel
    ensures Cover(NodeRanges(cfg, tags, ChildMasks(cfg, active, level), level), p)
            == Cover(NodeRanges(cfg, tags, active, level - 1), p)
  {
    if |active| > 0 {
      var m := |active| - 1;
      LevelTelescope(cfg, tags, active[..m], level, p);
      LevelTelescopeStep(cfg, tags, active, level, p);
    }
  }

  /** One step of the telescope: the children of the last active node
      cover exactly that node's particles. */
  lemma {:induction false} LevelTelescopeStep(cfg: Config, tags: seq<int>, active: seq<int>, level: int, p: int)
    requires cfg.dim >= 1 && 1 <= level <= cfg.maxLevel && |active| > 0
    requires var m := |active| - 1;
             Cover(NodeRanges(cfg, tags, ChildMasks(cfg, active[..m], level), level), p)
             == Cover(NodeRanges(cfg, tags, active[..m], level - 1), p)
    ensures Cover(NodeRanges(cfg, tags, ChildMasks(cfg, active, level), level), p)
            == Cover(NodeRanges(cfg, tags, active, level - 1), p)
  {
    var m := |active| - 1;
    var parents := NodeRanges(cfg, tags, active, level - 1);
    NodeRangesPrefix(cfg, tags, active, level - 1, m);
    BlockCover(cfg, tags, active[m], level, p);
    ChildMasksSnoc(cfg, tags, active, level, p);
    assert Cover(parents, p) == Cover(parents[..m], p) + Holds(parents[m], p);
  }

  // ---------------------------------------------------------------------
  // One pass preserves the invariant
  // ---------------------------------------------------------------------

  lemma {:induction false} CountKindAbsent(ks: seq<Kind>, k: Kind)
    requires forall i :: 0 <= i < |ks| ==> ks[i] != k
    ensures CountKind(ks, k) == 0
  {
    if |ks| > 0 {
      CountKindAbsent(ks[..|ks| - 1], k);
    }
  }

  /** Labels of the slots after the pass for `level`. */
  ghost function NextTagOf(cfg: Config, tagOf: seq<int>, active: seq<int>, level: int): (r: seq<int>)
    requires cfg.dim >= 1 && level <= cfg.maxLevel
  {
    tagOf + ChildMasks(cfg, active, level)
  }

  ghost function NextLevelOf(cfg: Config, levelOf: seq<int>, active: seq<int>, level: int): (r: seq<int>)
  {
    levelOf + Repeat(NumChildren(cfg.dim) * |active|, level)
  }

  /** The particles the pass moves into leaves, plus those of the nodes it
      leaves for the next pass, are exactly those of the nodes it started
      from. */
  lemma {:induction false} LevelCover(cfg: Config, tags: seq<int>, t: Octree, active: seq<int>, level: int,
                                      p: int)
    requires cfg.dim >= 1 && 1 <= level <= cfg.maxLevel
    ensures var (t', active') := LevelStep(cfg, tags, t, active, level);
            Cover(t'.leaves, p) + Cover(NodeRanges(cfg, tags, active', level), p)
            == Cover(t.leaves, p) + Cover(NodeRanges(cfg, tags, active, level - 1), p)
  {
    var children := ChildMasks(cfg, active, level);
    var ranges := NodeRanges(cfg, tags, children, level);
    var kinds := Kinds(cfg, ranges, level);
    var newLeaves := Compact(ranges, kinds, LeafKind);
    var (t', active') := LevelStep(cfg, tags, t, active, level);
    assert Cover(t'.leaves, p) == Cover(t.leaves, p) + Cover(newLeaves, p) by {
      CoverAppend(t.leaves, newLeaves, p);
    }
    assert NodeRanges(cfg, tags, active', level) == Compact(ranges, kinds, NodeKind) by {
      CompactNodeRanges(cfg, tags, children, kinds, NodeKind, level);
    }
    assert Cover(ranges, p) == Cover(newLeaves, p) + Cover(Compact(ranges, kinds, NodeKind), p) by {
      SplitByKind(ranges, kinds, p);
    }
    LevelTelescope(cfg, tags, active, level, p);
  }

  /** A slot written by an earlier pass keeps its description; a pending
      internal slot becomes a written one, pointing at its children. Stated
      for any extension of the arrays whose new labels are the children of
      the active set. */
  lemma {:induction false} OldSlotDescribed(cfg: Config, tags: seq<int>, t: Octree, tagOf: seq<int>,
                         levelOf: seq<int>, active: seq<int>, level: int, s: nat,
                         t': Octree, tagOf': seq<int>, levelOf': seq<int>, active': seq<int>)
    requires cfg.dim >= 1 && 1 <= level <= cfg.maxLevel
    requires |tagOf| == |t.nodes| && |levelOf| == |t.nodes| && s < |t.nodes|
    requires SlotDescribed(cfg, tags, t, tagOf, levelOf, active, level, s)
    requires |t'.nodes| == |t.nodes| + NumChildren(cfg.dim) * |active|
    requires t.nodes <= t'.nodes && t.leaves <= t'.leaves
    requires tagOf' == tagOf + ChildMasks(cfg, active, level)
    requires levelOf' == levelOf + Repeat(NumChildren(cfg.dim) * |active|, level)
    ensures |tagOf'| == |t'.nodes| && |levelOf'| == |t'.nodes|
    ensures SlotDescribed(cfg, tags, t', tagOf', levelOf', active', level + 1, s)
  {
    var n := NumChildren(cfg.dim);
    assert t'.nodes[s] == t.nodes[s];
    assert tagOf'[s] == tagOf[s] && levelOf'[s] == levelOf[s];
    match t.nodes[s]
    case Empty =>
    case Leaf(k) =>
      assert t'.leaves[k] == t.leaves[k];
    case Internal(o) =>
      if o < |t.nodes| {
        forall u | o <= u < o + n
          ensures levelOf'[u] == levelOf[u] && tagOf'[u] == tagOf[u]
        {
        }
      } else {
        var j :| 0 <= j < |active| && o == |t.nodes| + n * j && active[j] == tagOf[s];
        PendingBlockWritten(cfg, active, level, j, |t.nodes|, tagOf, levelOf, tagOf', levelOf');
      }
  }

  /** The block the pass writes for entry `j` of the active set is labelled
      with that entry's children, one level down. */
  lemma {:induction false} PendingBlockWritten(cfg: Config, active: seq<int>, level: int, j: nat,
                                               base: nat, tagOf: seq<int>, levelOf: seq<int>,
                                               tagOf': seq<int>, levelOf': seq<int>)
    requires cfg.dim >= 1 && level <= cfg.maxLevel && j < |active|
    requires |tagOf| == base && |levelOf| == base
    requires tagOf' == tagOf + ChildMasks(cfg, active, level)
    requires levelOf' == levelOf + Repeat(NumChildren(cfg.dim) * |active|, level)
    ensures base + NumChildren(cfg.dim) * j + NumChildren(cfg.dim) <= |tagOf'| == |levelOf'|
    ensures forall u :: base + NumChildren(cfg.dim) * j <= u < base + NumChildren(cfg.dim) * j + NumChildren(cfg.dim) ==>
              levelOf'[u] == level
              && tagOf'[u] == ChildTagMask(active[j], u - (base + NumChildren(cfg.dim) * j), level,
                                           cfg.maxLevel, cfg.dim)
  {
    var n := NumChildren(cfg.dim);
    var o := base + n * j;
    var children := ChildMasks(cfg, active, level);
    assert n * j + n <= n * |active| by {
      MulSign(n, |active| - j - 1);
    }
    forall u | o <= u < o + n
      ensures levelOf'[u] == level
      ensures tagOf'[u] == ChildTagMask(active[j], u - o, level, cfg.maxLevel, cfg.dim)
    {
      ChildMasksAt(cfg, active, level, j, u - o);
      assert tagOf'[u] == children[n * j + (u - o)];
    }
  }

  /** A slot written by the pass for `level` is described by the child it
      stands for: entry `i` of the pass's children, with particle range
      `ranges[i]` and kind `kinds[i]`. */
  lemma {:induction false} NewSlotDescribed(cfg: Config, tags: seq<int>, t: Octree, level: int, i: nat,
                         children: seq<int>, ranges: seq<Range>, kinds: seq<Kind>,
                         t': Octree, tagOf': seq<int>, levelOf': seq<int>, active': seq<int>)
    requires cfg.dim >= 1 && 1 <= level <= cfg.maxLevel
    requires |children| == |ranges| == |kinds| && i < |children|
    requires ranges[i] == NodeRange(cfg, tags, children[i], level)
    requires kinds[i] == ClassifyNode(ranges[i].lo, ranges[i].hi, cfg.threshold, level == cfg.maxLevel)
    requires t'.nodes == t.nodes + LevelSlots(kinds, |t.nodes| + |children|, |t.leaves|,
                                              NumChildren(cfg.dim))
    requires t'.leaves == t.leaves + Compact(ranges, kinds, LeafKind)
    requires active' == Compact(children, kinds, NodeKind)
    requires |tagOf'| == |t'.nodes| && |levelOf'| == |t'.nodes|
    requires tagOf'[|t.nodes| + i] == children[i] && levelOf'[|t.nodes| + i] == level
    ensures SlotDescribed(cfg, tags, t', tagOf', levelOf', active', level + 1, |t.nodes| + i)
  {
    var n := NumChildren(cfg.dim);
    var s := |t.nodes| + i;
    var nodeIdx := CountKind(kinds[..i], NodeKind);
    var leafIdx := CountKind(kinds[..i], LeafKind);
    assert |t'.nodes| == |t.nodes| + |children|;
    assert t'.nodes[s] == WriteNode(kinds[i], nodeIdx, leafIdx, |t'.nodes|, |t.leaves|, n);
    var rg := NodeRange(cfg, tags, tagOf'[s], levelOf'[s]);
    assert rg == ranges[i];
    match kinds[i]
    case EmptyKind =>
    case LeafKind =>
      CompactAt(ranges, kinds, LeafKind, i);
      assert t'.leaves[|t.leaves| + leafIdx] == ranges[i];
    case NodeKind =>
      CompactAt(children, kinds, NodeKind, i);
      var o := |t'.nodes| + n * nodeIdx;
      ProductNonNegative(nodeIdx, n);
      assert o >= |t'.nodes| > s;
      assert t'.nodes[s] == Internal(o);
      assert 0 <= nodeIdx < |active'| && active'[nodeIdx] == tagOf'[s];
      assert exists j :: 0 <= j < |active'| && o == |t'.nodes| + n * j && active'[j] == tagOf'[s];
  }

  /** The first pass writes the root's block; later passes leave it alone. */
  lemma {:induction false} RootBlockKept(cfg: Config, tags: seq<int>, t: Octree, tagOf: seq<int>,
                      levelOf: seq<int>, active: seq<int>, level: int)
    requires cfg.dim >= 1 && 1 <= level <= cfg.maxLevel
    requires BuildInvariant(cfg, tags, t, tagOf, levelOf, active, level)
    ensures var t' := LevelStep(cfg, tags, t, active, level).0;
            var tagOf' := NextTagOf(cfg, tagOf, active, level);
            var levelOf' := NextLevelOf(cfg, levelOf, active, level);
            && |tagOf'| == |t'.nodes| && |levelOf'| == |t'.nodes|
            && NumChildren(cfg.dim) <= |t'.nodes|
            && forall c :: 0 <= c < NumChildren(cfg.dim) ==>
                 levelOf'[c] == 1 && tagOf'[c] == ChildTagMask(0, c, 1, cfg.maxLevel, cfg.dim)
  {
    var n := NumChildren(cfg.dim);
    var tagOf' := NextTagOf(cfg, tagOf, active, level);
    var levelOf' := NextLevelOf(cfg, levelOf, active, level);
    if level == 1 {
      forall c | 0 <= c < n
        ensures levelOf'[c] == 1 && tagOf'[c] == ChildTagMask(0, c, 1, cfg.maxLevel, cfg.dim)
      {
        ChildMasksAt(cfg, active, level, 0, c);
      }
    } else {
      forall c | 0 <= c < n
        ensures levelOf'[c] == levelOf[c] && tagOf'[c] == tagOf[c]
      {
      }
    }
  }

  /** At the deepest level every non-empty child is a leaf, so the pass
      leaves nothing for a further one. */
  lemma {:induction false} LastLevelHasNoNodes(cfg: Config, tags: seq<int>, t: Octree, active: seq<int>)
    requires cfg.dim >= 1 && 1 <= cfg.maxLevel
    ensures |LevelStep(cfg, tags, t, active, cfg.maxLevel).1| == 0
  {
    var children := ChildMasks(cfg, active, cfg.maxLevel);
    var ranges := NodeRanges(cfg, tags, children, cfg.maxLevel);
    var kinds := Kinds(cfg, ranges, cfg.maxLevel);
    CountKindAbsent(kinds, NodeKind);
  }

  lemma {:induction false} LevelStepParts(cfg: Config, tags: seq<int>, t: Octree, active: seq<int>,
                                          level: int, children: seq<int>, ranges: seq<Range>,
                                          kinds: seq<Kind>)
    requires cfg.dim >= 1 && 1 <= level <= cfg.maxLevel
    requires children == ChildMasks(cfg, active, level)
    requires ranges == NodeRanges(cfg, tags, children, level)
    requires kinds == Kinds(cfg, ranges, level)
    ensures LevelStep(cfg, tags, t, active, level).0.nodes
            == t.nodes + LevelSlots(kinds, |t.nodes| + |children|, |t.leaves|, NumChildren(cfg.dim))
    ensures LevelStep(cfg, tags, t, active, level).0.leaves
            == t.leaves + Compact(ranges, kinds, LeafKind)
    ensures LevelStep(cfg, tags, t, active, level).1 == Compact(children, kinds, NodeKind)
  {
    assert LevelStep(cfg, tags, t, active, level)
           == Assemble(t, children, ranges, kinds, NumChildren(cfg.dim));
  }

  /** Every slot, old or new, is described after the pass. */
  lemma {:induction false} SlotsDescribedAfter(cfg: Config, tags: seq<int>, t: Octree, tagOf: seq<int>,
                                               levelOf: seq<int>, active: seq<int>, level: int)
    requires cfg.dim >= 1 && 1 <= level <= cfg.maxLevel
    requires AllSlotsDescribed(cfg, tags, t, tagOf, levelOf, active, level)
    ensures var step := LevelStep(cfg, tags, t, active, level);
            AllSlotsDescribed(cfg, tags, step.0, NextTagOf(cfg, tagOf, active, level),
                              NextLevelOf(cfg, levelOf, active, level), step.1, level + 1)
  {
    var n := NumChildren(cfg.dim);
    var step := LevelStep(cfg, tags, t, active, level);
    var t', active' := step.0, step.1;
    var tagOf' := NextTagOf(cfg, tagOf, active, level);
    var levelOf' := NextLevelOf(cfg, levelOf, active, level);
    var next := level + 1;
    var children := ChildMasks(cfg, active, level);
    var ranges := NodeRanges(cfg, tags, children, level);
    var kinds := Kinds(cfg, ranges, level);
    LevelStepParts(cfg, tags, t, active, level, children, ranges, kinds);
    assert t.nodes <= t'.nodes && t.leaves <= t'.leaves;
    forall s | 0 <= s < |t'.nodes|
      ensures SlotDescribed(cfg, tags, t', tagOf', levelOf', active', next, s)
    {
      if s < |t.nodes| {
        OldSlotDescribed(cfg, tags, t, tagOf, levelOf, active, level, s,
                         t', tagOf', levelOf', active');
      } else {
        var i := s - |t.nodes|;
        assert tagOf'[|t.nodes| + i] == children[i];
        NewSlotDescribed(cfg, tags, t, level, i, children, ranges, kinds,
                         t', tagOf', levelOf', active');
      }
    }
  }

  /** The pass for `level` keeps the build invariant. */
  lemma {:induction false} LevelStepPreserves(cfg: Config, tags: seq<int>, t: Octree, tagOf: seq<int>,
                                              levelOf: seq<int>, active: seq<int>, level: int,
                                              t': Octree, active': seq<int>)
    requires cfg.dim >= 1 && 1 <= level <= cfg.maxLevel
    requires BuildInvariant(cfg, tags, t, tagOf, levelOf, active, level)
    requires (t', active') == LevelStep(cfg, tags, t, active, level)
    ensures BuildInvariant(cfg, tags, t', NextTagOf(cfg, tagOf, active, level),
                           NextLevelOf(cfg, levelOf, active, level), active', level + 1)
  {
    SlotsDescribedAfter(cfg, tags, t, tagOf, levelOf, active, level);
    RootBlockKept(cfg, tags, t, tagOf, levelOf, active, level);
    if level == cfg.maxLevel {
      LastLevelHasNoNodes(cfg, tags, t, active);
    }
    forall p {
      LevelCover(cfg, tags, t, active, level, p);
    }
  }

  // ---------------------------------------------------------------------
  // The finished tree
  // ---------------------------------------------------------------------

  /** Once no node is pending, every described slot is correct. */
  lemma {:induction false} DescribedSlotCorrect(cfg: Config, tags: seq<int>, t: Octree, tagOf: seq<int>,
                                                levelOf: seq<int>, level: int, s: nat)
    requires cfg.dim >= 1
    requires AllSlotsDescribed(cfg, tags, t, tagOf, levelOf, [], level)
    requires s < |t.nodes|
    ensures 1 <= levelOf[s] <= cfg.maxLevel
    ensures SlotCorrect(cfg, tags, t, s, tagOf[s], levelOf[s])
    decreases cfg.maxLevel - levelOf[s]
  {
    var n := NumChildren(cfg.dim);
    var L, tg := levelOf[s], tagOf[s];
    assert SlotDescribed(cfg, tags, t, tagOf, levelOf, [], level, s);
    match t.nodes[s]
    case Empty =>
    case Leaf(_) =>
    case Internal(o) =>
      assert o + n <= |t.nodes|;
      var L1 := L + 1;
      forall c | 0 <= c < n
        ensures SlotCorrect(cfg, tags, t, o + c, ChildTagMask(tg, c, L1, cfg.maxLevel, cfg.dim), L1)
      {
        assert SlotDescribed(cfg, tags, t, tagOf, levelOf, [], level, o + c);
        DescribedSlotCorrect(cfg, tags, t, tagOf, levelOf, level, o + c);
      }
  }

  /** When the level loop stops, the arrays are the octree of the tags and
      the leaves hold every particle between the lower bounds of the first
      and one-past-last tag exactly once. */
  lemma {:induction false} FinishedTree(cfg: Config, tags: seq<int>, t: Octree, tagOf: seq<int>,
                                        levelOf: seq<int>, level: int)
    requires cfg.dim >= 1 && 2 <= level <= cfg.maxLevel + 1
    requires BuildInvariant(cfg, tags, t, tagOf, levelOf, [], level)
    ensures WellFormed(NumChildren(cfg.dim), t)
    ensures BlockCorrect(cfg, tags, t, 0, 0, 1)
    ensures forall p :: Cover(t.leaves, p) == Holds(RootRange(cfg, tags), p)
  {
    var n := NumChildren(cfg.dim);
    forall s | 0 <= s < |t.nodes|
      ensures match t.nodes[s]
              case Empty => true
              case Leaf(k) => k < |t.leaves|
              case Internal(o) => s < o && o + n <= |t.nodes|
    {
      assert SlotDescribed(cfg, tags, t, tagOf, levelOf, [], level, s);
    }
    forall c | 0 <= c < n
      ensures SlotCorrect(cfg, tags, t, c, ChildTagMask(0, c, 1, cfg.maxLevel, cfg.dim), 1)
    {
      DescribedSlotCorrect(cfg, tags, t, tagOf, levelOf, level, c);
    }
    assert NodeRanges(cfg, tags, [], level - 1) == [];
  }

  /** Before the first pass only the root is pending, and it holds every
      particle. */
  lemma {:induction false} InitialInvariant(cfg: Config, tags: seq<int>)
    requires cfg.dim >= 1 && cfg.maxLevel >= 1
    ensures BuildInvariant(cfg, tags, Octree([], []), [], [], [0], 1)
  {
    var root := NodeRange(cfg, tags, 0, 0);
    assert NodeRanges(cfg, tags, [0], 0) == [root];
    assert [root][..0] == [];
  }

  /** One pass of the level loop, with the labels of the slots it writes. */
  method BuildPass(cfg: Config, tags: seq<int>, t: Octree, ghost tagOf: seq<int>,
                   ghost levelOf: seq<int>, active: seq<int>, level: int)
    returns (t': Octree, active': seq<int>, ghost tagOf': seq<int>, ghost levelOf': seq<int>)
    requires Sorted(tags)
    requires cfg.dim >= 1 && 1 <= level <= cfg.maxLevel && |active| > 0
    requires BuildInvariant(cfg, tags, t, tagOf, levelOf, active, level)
    ensures BuildInvariant(cfg, tags, t', tagOf', levelOf', active', level + 1)
  {
    tagOf' := NextTagOf(cfg, tagOf, active, level);
    levelOf' := NextLevelOf(cfg, levelOf, active, level);
    t', active' := BuildLevel(cfg, tags, t, active, level);
    LevelStepPreserves(cfg, tags, t, tagOf, levelOf, active, level, t', active');
  }

  /** `build_tree`: level by level, split the pending nodes into their 2^D
      children, classify each child, append the children's slots and the new
      leaves, and carry the internal children into the next level. The
      source asserts `level <= max_level` at the top of every pass; that
      assertion fails on the first pass exactly when `max_level < 1`, which
      is the one failure, and it is proved to hold on every later pass. On
      success the arrays are the octree of the (sorted) tags. */
  method BuildTree(cfg: Config, tags: seq<int>) returns (r: Result<Octree, BuildError>)
    requires cfg.dim >= 1
    requires Sorted(tags)
    ensures r.Failure? <==> cfg.maxLevel < 1
    ensures r.Success? ==>
              && WellFormed(NumChildren(cfg.dim), r.value)
              && BlockCorrect(cfg, tags, r.value, 0, 0, 1)
              && forall p :: Cover(r.value.leaves, p) == Holds(RootRange(cfg, tags), p)
  {
    if cfg.maxLevel < 1 {
      return Failure(TreeTooDeep);
    }
    var t := Octree([], []);
    var active := [0];
    ghost var tagOf: seq<int> := [];
    ghost var levelOf: seq<int> := [];
    var level := 1;
    InitialInvariant(cfg, tags);
    while |active| > 0
      invariant 1 <= level <= cfg.maxLevel + 1
      invariant BuildInvariant(cfg, tags, t, tagOf, levelOf, active, level)
      decreases cfg.maxLevel + 1 - level
    {
      assert level <= cfg.maxLevel;
      t, active, tagOf, levelOf := BuildPass(cfg, tags, t, tagOf, levelOf, active, level);
      level := level + 1;
    }
    FinishedTree(cfg, tags, t, tagOf, levelOf, level);
    return Success(t);
  }

  /** When every tag lies below the tag limit, the leaves partition the
      particles: each particle index is in exactly one leaf. */
  lemma {:induction false} LeavesPartitionParticles(cfg: Config, tags: seq<int>, tree: Octree)
    requires cfg.maxLevel >= 0
    requires forall i :: 0 <= i < |tags| ==> 0 <= tags[i] < TagLimit(cfg.dim, cfg.maxLevel)
    requires forall p :: Cover(tree.leaves, p) == Holds(RootRange(cfg, tags), p)
    ensures forall p :: Cover(tree.leaves, p) == if 0 <= p < |tags| then 1 else 0
  {
    LowerBoundOfRange(tags, TagLimit(cfg.dim, cfg.maxLevel));
  }
}
