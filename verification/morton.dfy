/** The Morton-style tag arithmetic of the octree. A tag is an integer code of
    one cell at maximum depth; a node at `level` owns the tags
    `[tag, tag + SubtreeLength(level))`. The bit-level helpers of the library
    (`child_tag_mask`, `point_to_tag`) are not part of this model: the child
    mask is stated here as an explicit assumption, in arithmetic form. */
module Morton {

  function Pow2(e: nat): (r: nat)
    ensures r >= 1
  {
    if e == 0 then 1 else 2 * Pow2(e - 1)
  }

  lemma {:induction false} Pow2Add(a: nat, b: nat)
    ensures Pow2(a + b) == Pow2(a) * Pow2(b)
  {
    if a > 0 {
      Pow2Add(a - 1, b);
    }
  }

  lemma {:induction false} Pow2Monotone(a: nat, b: nat)
    requires a <= b
    ensures Pow2(a) <= Pow2(b)
  {
    if a < b {
      Pow2Monotone(a, b - 1);
    }
  }

  /** `nchild = 1 << D`: an internal node owns 2^D child slots. */
  function NumChildren(dim: nat): (r: nat)
  {
    Pow2(dim)
  }

  lemma {:induction false} ProductNonNegative(a: int, b: nat)
    requires a >= 0
    ensures a * b >= 0
  {
  }

  /** Number of maximum-depth tags under one node at `level`:
      `2^((max_level - level) * D)`; the builder's `length` is this minus one. */
  function SubtreeLength(dim: nat, maxLevel: int, level: int): (r: nat)
    requires level <= maxLevel
  {
    ProductNonNegative(maxLevel - level, dim);
    Pow2(((maxLevel - level) * dim) as nat)
  }

  /** A node's tag interval is exactly 2^D of its children's intervals. */
  lemma {:induction false} SubtreeLengthSplit(dim: nat, maxLevel: int, level: int)
    requires level < maxLevel
    ensures SubtreeLength(dim, maxLevel, level)
            == NumChildren(dim) * SubtreeLength(dim, maxLevel, level + 1)
  {
    ProductNonNegative(maxLevel - level - 1, dim);
    assert (maxLevel - level) * dim == dim + (maxLevel - level - 1) * dim;
    Pow2Add(dim, ((maxLevel - level - 1) * dim) as nat);
  }

  /** Assumed `detail::child_tag_mask(tag, which_child, level, max_level, D)`:
      the first tag of child `whichChild` (at `level`) of the node whose first
      tag is `tag`. The library ors `which_child << ((max_level-level)*D)` into
      `tag`; on a tag whose low bits are zero that is this sum. */
  function ChildTagMask(tag: int, whichChild: nat, level: int, maxLevel: int, dim: nat): (r: int)
    requires level <= maxLevel
  {
    tag + whichChild * SubtreeLength(dim, maxLevel, level)
  }

  /** One past the largest tag `point_to_tag` can produce: the root (level 0)
      interval is `[0, TagLimit)`. */
  function TagLimit(dim: nat, maxLevel: int): (r: nat)
    requires maxLevel >= 0
  {
    SubtreeLength(dim, maxLevel, 0)
  }

  /** The 2^D children of a node tile its tag interval: child `c` starts
      `c` child-lengths after the parent's first tag, and the last child ends
      where the parent ends. */
  lemma {:induction false} ChildIntervalsTile(tag: int, c: nat, level: int, maxLevel: int, dim: nat)
    requires 1 <= level <= maxLevel
    requires c < NumChildren(dim)
    ensures ChildTagMask(tag, 0, level, maxLevel, dim) == tag
    ensures ChildTagMask(tag, c, level, maxLevel, dim) + SubtreeLength(dim, maxLevel, level)
            == ChildTagMask(tag, c + 1, level, maxLevel, dim)
    ensures ChildTagMask(tag, NumChildren(dim), level, maxLevel, dim)
            == tag + SubtreeLength(dim, maxLevel, level - 1)
  {
    SubtreeLengthSplit(dim, maxLevel, level - 1);
  }

  /** The default depth `m_max_level = 32/D - 2` of the octree. */
  function DefaultMaxLevel(dim: nat): (r: int)
    requires dim >= 1
  {
    32 / dim - 2
  }

  /** With the default depth a build can start (depth at least one) exactly
      for D <= 10, and the tag limit, one past the largest tag of the root
      interval, is at most 2^30. */
  lemma {:induction false} DefaultMaxLevelBounds(dim: nat)
    requires dim >= 1
    ensures DefaultMaxLevel(dim) >= 1 <==> dim <= 10
    ensures DefaultMaxLevel(dim) >= 0 ==> DefaultMaxLevel(dim) * dim <= 30
    ensures DefaultMaxLevel(dim) >= 0 ==> TagLimit(dim, DefaultMaxLevel(dim)) <= Pow2(30)
  {
    var q := 32 / dim;
    assert q * dim + 32 % dim == 32;
    if DefaultMaxLevel(dim) >= 0 {
      assert (q - 2) * dim == q * dim - 2 * dim;
      Pow2Monotone(((DefaultMaxLevel(dim) - 0) * dim) as nat, 30);
    }
  }

  /** The children of a node start in order: a later child's first tag is
      not below an earlier child's. */
  lemma {:induction false} ChildTagMaskMonotone(tag: int, c: nat, d: nat, level: int, maxLevel: int, dim: nat)
    requires level <= maxLevel && c <= d
    ensures ChildTagMask(tag, c, level, maxLevel, dim) <= ChildTagMask(tag, d, level, maxLevel, dim)
  {
    var len := SubtreeLength(dim, maxLevel, level);
    assert d * len == c * len + (d - c) * len;
    ProductNonNegative(d - c, len);
  }

  /** The builder's search key `child_tag_mask(...) + length`, with
      `length = 2^((max_level-level)*D) - 1`, stays below 2^30 at the
      default depth for every child of a node whose tag interval lies in
      the root interval: no 32-bit overflow in the key. */
  lemma {:induction false} DefaultMasksFit(dim: nat, tag: int, c: nat, level: int)
    requires dim >= 1 && 1 <= level <= DefaultMaxLevel(dim)
    requires c < NumChildren(dim)
    requires 0 <= tag && tag + SubtreeLength(dim, DefaultMaxLevel(dim), level - 1) <= TagLimit(dim, DefaultMaxLevel(dim))
    ensures 0 <= ChildTagMask(tag, c, level, DefaultMaxLevel(dim), dim)
    ensures ChildTagMask(tag, c, level, DefaultMaxLevel(dim), dim) + (SubtreeLength(dim, DefaultMaxLevel(dim), level) - 1)
            < Pow2(30)
  {
    var ml := DefaultMaxLevel(dim);
    ChildIntervalsTile(tag, c, level, ml, dim);
    ChildIntervalsTile(tag, 0, level, ml, dim);
    ChildTagMaskMonotone(tag, 0, c, level, ml, dim);
    ChildTagMaskMonotone(tag, c + 1, NumChildren(dim), level, ml, dim);
    DefaultMaxLevelBounds(dim);
  }
}
