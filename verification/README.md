# Aboria octree and fast multipole tree walk, modelled in Dafny

This project models two coupled parts of Aboria, the particle library that
sparpy embeds.

The first part is the **octree** (`Aboria/src/OctTree.h`):

- `sort_by_tags` orders the particles by their integer Morton tags.
- `build_tree` builds the tree level by level. It produces a flat node
  array of slots `{Empty, Leaf(offset), Internal(offset)}` and a leaf array
  of `[lo, hi)` particle ranges.
- `octtree_child_iterator` walks the 2^D child slots of one block. It skips
  EMPTY slots, `go_to` jumps to the child whose half-box holds a point, and
  `get_bounds` halves the box.
- `octtree_query::get_children`, `get_bucket` and `get_bucket_particles`
  navigate the built tree.

The second part is the **fast multipole tree walk**
(`Aboria/src/FastMultipoleMethod.h`):

- the upward sweep (P2M, M2M);
- the downward sweep (L2L, M2L, an inherited list of strongly connected
  buckets, and L2P plus exact P2P at the leaves);
- `gemv`, `calculate_expansions` and `evaluate_expansion`.

The numerics are replaced by symbolic bookkeeping:

- An expansion (`W` or `g`) is a multiset of source particle indices.
- Every target vector entry is a multiset of source particle indices as
  well.
- P2M and P2P deliver a bucket's particles. M2M, M2L and L2L add or copy
  multisets, and L2P reads one.

The central theorem is the promise `target_vector += A*source_vector`. It
holds whatever the well-separation test answers: every target particle
receives every source particle exactly once, split between the far-field
chain and P2P.

Files, one module each:

| file | module | contents |
|---|---|---|
| `results.dfy` | `Results` | `Result` for the library's fatal `ASSERT`/`CHECK` |
| `spans.dfy` | `Spans` | particle ranges as multisets, `Times` |
| `search.dfy` | `Search` | `lower_bound`/`upper_bound`: a reference definition and binary searches |
| `morton.dfy` | `Morton` | tag arithmetic: subtree lengths, child masks, the default depth |
| `build.dfy` | `OctTreeBuild` | `classify_node`, scans, `write_nodes`, `make_leaf`, `scatter_if`, `copy_if`, the level loop, and what a built tree is |
| `sort.dfy` | `TagSort` | `sort_by_tags` |
| `navigate.dfy` | `OctTreeNavigation` | the child iterator and the queries |
| `fmm.dfy` | `Fmm` | the sweeps, `gemv`, `calculate_expansions`, `evaluate_expansion` |

Three helpers are defined in files outside this model. Each one is stated
as an explicit assumption:

- **`detail::child_tag_mask`.** Child `c` of a node at `level` whose first
  tag is `t` starts at `t + c * 2^((max_level - level) * D)`
  (`Morton.ChildTagMask`). That is what or-ing `c << ((max_level-level)*D)`
  into a tag with zero low bits gives.
- **`theta_condition::check`.** It is an arbitrary predicate
  `check(targetBox, sourceBox)`.
- **The packed node encoding** (`get_leaf_id`, `is_empty`, `is_leaf`). It
  is the tagged variant `Slot`.

## Model

| member | source | states |
|---|---|---|
| Morton.SubtreeLengthSplit | Aboria/src/OctTree.h:268 | A node's tag interval of `2^((max_level-level)*D)` tags is exactly 2^D intervals of its children's length. |
| Morton.ChildIntervalsTile | Aboria/src/OctTree.h:423-427 | Child 0 starts at the parent's first tag, each child ends where the next begins, and child 2^D starts where the parent ends: the children tile the parent's tag interval. |
| Morton.DefaultMaxLevelBounds | Aboria/src/OctTree.h:83 | With `m_max_level = 32/D - 2` a build can start (max level at least 1) exactly when D <= 10, and the root tag interval `[0, TagLimit)` then ends at or below 2^30. |
| Morton.DefaultMasksFit | Aboria/src/OctTree.h:268-274 | At the default depth, for every child of a node whose tag interval lies inside the root interval, the search key `child_tag_mask + length` is non-negative and below 2^30, so the 32-bit key does not overflow. |
| Search.LowerBoundSplits | Aboria/src/OctTree.h:258-262 | Every tag before the lower bound is below the key, the tag at it is not, and on sorted tags no later tag is below the key either. |
| Search.LowerBoundMonotone | Aboria/src/OctTree.h:258-274 | A larger key never has an earlier lower bound, sorted or not. |
| Search.LowerBoundOfRange | Aboria/src/OctTree.h:258-274 | When all tags lie in `[0, limit)`, the lower bound of 0 is 0 and that of `limit` is the length. |
| Search.LowerBoundUnique | Aboria/src/OctTree.h:258-262 | Any position that splits the tags into "below the key" and "not below" is the lower bound. |
| Search.LowerBoundRange | Aboria/src/OctTree.h:258-274 | On sorted tags, the positions between the lower bounds of `lo` and `hi` are exactly those whose tag lies in `[lo, hi)`, in both directions. |
| Search.LowerBoundSearch | Aboria/src/OctTree.h:258-262 | The binary search returns the position that splits the sorted tags into "below the key" and "not below", which is the reference lower bound. |
| Search.UpperBoundSearch | Aboria/src/OctTree.h:264-274 | The binary search returns the first position whose tag exceeds the key, which on integers is the lower bound of key + 1. |
| OctTreeBuild.ClassifyNode | Aboria/src/OctTree.h:433-459 | EMPTY exactly when the count is 0. LEAF exactly when the count is non-zero and it is the last level or at most the threshold. NODE exactly when the count is non-zero, it is not the last level and the count exceeds the threshold. |
| OctTreeBuild.CountKindMultiplicity | Aboria/src/OctTree.h:308-324 | The count the scans are measured against (`CountKind`) is the multiplicity of the kind among the children. |
| OctTreeBuild.ExclusiveScan | Aboria/src/OctTree.h:308-321 | Entry `i` of the scan is the number of children of the given kind before child `i`. |
| OctTreeBuild.LevelCount | Aboria/src/OctTree.h:323-324 | The last scan value, plus one if the last child is of that kind, is the number of children of that kind on the level. |
| OctTreeBuild.CompactAt | Aboria/src/OctTree.h:382-388 | In `Compact`, the `copy_if` of the active set, a child of kind `k` lands in the compacted sequence at its exclusive-scan number. |
| OctTreeBuild.ScatterLeaves | Aboria/src/OctTree.h:349-364 | Scattering every LEAF child's range (the ranges `make_leaf` builds, `MakeLeaves`) to its leaf-scan position fills the new block with exactly the LEAF ranges in child order. |
| OctTreeBuild.WriteNodesByCount | Aboria/src/OctTree.h:463-491 | With exclusive scans as numbers, `write_nodes` (`WriteNodes`, one `WriteNode` per child) gives a LEAF the leaf offset `leaves.size() + count of LEAF children before it`. It gives a NODE the block offset `nodes.size() + nchild * count of NODE children before it`. |
| OctTreeBuild.ChildMasksAt | Aboria/src/OctTree.h:423-427 | Child index `nchild*j + c` holds child `c` of active node `j`: `idx/nchild` picks the parent and `idx & (nchild-1)` the child. |
| OctTreeBuild.TabulateChildMasks | Aboria/src/OctTree.h:250-251 | Tabulating the child masks over all `nchild * |active|` indices gives the 2^D children of every active node, in order. |
| OctTreeBuild.ChildIntervals | Aboria/src/OctTree.h:258-274 | Each child's range is `[lower_bound(mask), upper_bound(mask + length))` over the sorted tags. |
| OctTreeBuild.IntervalsAreNodeRanges | Aboria/src/OctTree.h:268-274 | With `length = 2^((max_level-level)*D) - 1`, `upper_bound(mask + length)` is the end of the child's tag interval. |
| OctTreeBuild.SiblingRangesAdjacent | Aboria/src/OctTree.h:258-274 | Sibling particle ranges satisfy `lower <= upper`. Each ends where the next begins, and together they run from the parent's first particle to its last. |
| OctTreeBuild.BlockCover | Aboria/src/OctTree.h:258-274 | Every particle is in exactly as many of a node's children's ranges as in the node's own range. |
| OctTreeBuild.LevelCover | Aboria/src/OctTree.h:349-388 | One level moves each particle from the pending internal nodes either into a new leaf or into a next-level internal node, never both and never neither. |
| OctTreeBuild.BuildLevel | Aboria/src/OctTree.h:242-388 | One pass of the level loop computes exactly the reference step: the extended node and leaf arrays and the next active set. |
| OctTreeBuild.LastLevelHasNoNodes | Aboria/src/OctTree.h:295 | At `level == max_level` no child is a NODE, so the next active set is empty. |
| OctTreeBuild.LevelStepPreserves | Aboria/src/OctTree.h:229-391 | A pass keeps the build invariant. Finished slots describe the octree of the tags, pending internal slots point at the blocks the next pass writes, and the leaves plus the pending nodes cover every particle once. |
| OctTreeBuild.BuildTree | Aboria/src/OctTree.h:229-391 | The build fails (the `level <= max_level` assertion) exactly when `max_level < 1`. Otherwise the arrays are well formed, the block at 0 is the octree of the tags, and the leaf ranges cover each particle of the root range exactly once. |
| OctTreeBuild.LeavesPartitionParticles | Aboria/src/OctTree.h:349-364 | When all tags are below the tag limit, every particle index `0 <= p < N` is in exactly one leaf range and no other index is in any. |
| TagSort.InsertSorted | Aboria/src/OctTree.h:200 | `Insert`, the step of the insertion sort: inserting an entry into tag-sorted entries keeps them sorted. |
| TagSort.SortKeyed | Aboria/src/OctTree.h:200 | `sort_by_key` returns a permutation of the (tag, index) entries, sorted by tag. |
| TagSort.IndicesOfPermutation | Aboria/src/OctTree.h:199-200 | Permuting the entries permutes their indices. |
| TagSort.ReorderPermutes | Aboria/src/OctTree.h:201-203 | `reorder_destructive` (`Reorder`) through an index array that is a permutation of 0..n-1 yields the same particles, each as often as before. |
| TagSort.SortByTags | Aboria/src/OctTree.h:194-206 | The tags come out ascending and the index array is a permutation of 0..n-1. Tags and particles are rearranged by the same permutation, so the particles are the same multiset. With no tags nothing changes. |
| OctTreeNavigation.EndIterator | Aboria/src/OctTree.h:524-527 | The default iterator is at the end: its child number is 2^D. |
| OctTreeNavigation.Increment | Aboria/src/OctTree.h:635-640 | `increment` moves to a strictly later child of the same block and stops at a non-empty slot or at child 2^D, never later. Every slot it skips is EMPTY. |
| OctTreeNavigation.NewChildIterator | Aboria/src/OctTree.h:529-538 | The constructor stops at the first non-empty child of the block, or at the end when all 2^D are EMPTY. |
| OctTreeNavigation.HighBitsBit | Aboria/src/OctTree.h:546-552 | In the child number built from `k` axes, bit `k-1-i` is set exactly when axis `i` is not below its midpoint. |
| OctTreeNavigation.GoTo | Aboria/src/OctTree.h:540-556 | For a point inside the box, `go_to` picks a child number below 2^D in the same block. `is_high(i)` holds exactly when `p[i] >=` the midpoint of axis `i`. |
| OctTreeNavigation.GetBounds | Aboria/src/OctTree.h:566-577 | The child box is valid and lies inside the parent box, and every axis has half the parent's width. |
| OctTreeNavigation.GoToBoundsContain | Aboria/src/OctTree.h:540-577 | After `go_to(p)`, the box of the chosen child contains `p`. |
| OctTreeNavigation.GetRootChildren | Aboria/src/OctTree.h:680-682 | The root iterator walks the block at 0 in the root box and skips only EMPTY slots. |
| OctTreeNavigation.GetChildren | Aboria/src/OctTree.h:689-692 | For an internal slot, the iterator walks that slot's child block, further down the array, in the child's box. |
| OctTreeNavigation.GetBucket | Aboria/src/OctTree.h:728-740 | The bucket and box are the last step of the descent by the point: from block 0 in the root box, each step is the child whose number has `is_high(k)` exactly when `p[k] >=` the box midpoint, in the block of the previous internal slot and with the box `get_bounds` gives it; every step but the last is internal. The box is valid, inside the root box and contains the point. |
| OctTreeNavigation.DescentUnique | Aboria/src/OctTree.h:728-740 | The descent by a point is unique, so `get_bucket`'s bucket and box are determined by the tree, the root box and the point. |
| OctTreeNavigation.BucketParticlesMatchTags | Aboria/src/OctTree.h:707-718 | In a built tree, a leaf bucket's particles (`GetBucketParticles`) are exactly the particles whose tags fall in the leaf's tag interval. |
| Fmm.Up | Aboria/src/FastMultipoleMethod.h:74-93 | After the upward sweep every bucket's `W` is exactly the multiset of the particles under it. Nothing but the expansions changes. |
| Fmm.UpAllParticles | Aboria/src/FastMultipoleMethod.h:191-193 | The upward sweep over the root's children keeps their particles and leaves every `W` correct. |
| Fmm.SplitCovers | Aboria/src/FastMultipoleMethod.h:114-123 | For `Split`, the M2L-or-connect loop over candidates: `g` plus the particles of the connected candidates is exactly the particles of all candidates: no candidate is both connected and folded in, and none is neither. |
| Fmm.SplitKeepsAccepted | Aboria/src/FastMultipoleMethod.h:115-118 | Only candidates the test accepts are connected. |
| Fmm.SplitConnectsAccepted | Aboria/src/FastMultipoleMethod.h:115-118 | Every candidate the test accepts is connected. |
| Fmm.InheritCovers | Aboria/src/FastMultipoleMethod.h:130-144 | For `Inherit`, the pass over the parent's connected list: over the inherited list, the new `g` share plus the new connected particles is exactly the inherited list's particles. |
| Fmm.InheritKeepsLeaves | Aboria/src/FastMultipoleMethod.h:131-132 | A connected leaf stays connected. |
| Fmm.InheritKeeps | Aboria/src/FastMultipoleMethod.h:133-142 | A child of a connected internal bucket that the test accepts is connected. |
| Fmm.InteractCovers | Aboria/src/FastMultipoleMethod.h:106-145 | For `Interact`, the interaction step of one bucket: with an empty inherited list, `g` and the connected list account for all particles. Otherwise they account for the parent's L2L copy plus the inherited list's particles. |
| Fmm.P2PSubtree | Aboria/src/FastMultipoleMethod.h:164-171 | P2P from every leaf of a subtree adds exactly the subtree's particles to each particle of the target leaf, and nothing to any other entry. |
| Fmm.P2PConnected | Aboria/src/FastMultipoleMethod.h:156-173 | P2P over the connected list adds exactly the connected buckets' particles to each particle of the target leaf, and nothing elsewhere. |
| Fmm.LeafStep | Aboria/src/FastMultipoleMethod.h:151-173 | L2P and P2P give each particle of the leaf `g` plus the connected buckets' particles, and leave other entries alone. |
| Fmm.DownTarget | Aboria/src/FastMultipoleMethod.h:96-175 | `Down`/`DownForest`, the recursion of `calculate_dive_M2L_and_L2L`: the downward sweep under a bucket adds all particles to a target entry once per occurrence of that particle under the bucket. |
| Fmm.DownCovered | Aboria/src/FastMultipoleMethod.h:96-175 | At every bucket under the sweep, the stored `g` plus the stored connected buckets' particles is all particles. |
| Fmm.DownLocalIndependent | Aboria/src/FastMultipoleMethod.h:146-151 | The stored `g` and connectivity do not depend on the target vector. |
| Fmm.DownSelfConnected | Aboria/src/FastMultipoleMethod.h:114-145 | If the test accepts every box against itself, each bucket is on its own connected list. The list passed down is then never empty below the root's children. |
| Fmm.SweepsSelfConnected | Aboria/src/FastMultipoleMethod.h:197-201 | Under the same assumption, every bucket the sweeps store is on its own connected list. |
| Fmm.Gemv | Aboria/src/FastMultipoleMethod.h:181-182 | `gemv` fails exactly when the target and source lengths differ. |
| Fmm.GemvExactlyOnce | Aboria/src/FastMultipoleMethod.h:178-202 | When the leaves hold each of the particles 0..N-1 once, `gemv` adds to every target entry every source particle exactly once, on top of the old entry. This holds for any test. |
| Fmm.CalculateExpansionsAsGemv | Aboria/src/FastMultipoleMethod.h:205-227 | `calculate_expansions` (`CalculateExpansions`, over `Sweeps`) stores the same `W`, `g` and connectivity as `gemv`. |
| Fmm.SubtreeLeaves | Aboria/src/FastMultipoleMethod.h:245-252 | Walking `get_subtree` of a bucket (`Subtree`) and adding each leaf's particles (`P2PLeaves`) yields exactly the particles under the bucket. |
| Fmm.EvalConnectedParticles | Aboria/src/FastMultipoleMethod.h:240-254 | `EvalConnected`, P2P at a point over a connected list (a leaf directly, an internal bucket leaf by leaf over its subtree walk), yields exactly the connected buckets' particles. |
| Fmm.EvaluateMatchesGemv | Aboria/src/FastMultipoleMethod.h:231-256 | After `gemv`, `evaluate_expansion` (`EvaluateExpansion`) at any non-empty leaf or internal bucket of the swept tree yields every particle exactly once. That is what `gemv` added to each target entry. |

## Left out

- The numeric expansion operators (P2M, M2M, M2L, L2L, L2P and the kernel
  in P2P) and floating point. They are replaced by multisets of particle
  indices, and the accuracy of the approximation is outside the model.
- `point_to_tag`, `child_tag_mask`, `theta_condition` and the packed slot
  encoding are defined in files that are not part of this model. They are
  stated as the assumptions above.
- `classify_point` and the tag computation in `init_source`/`embed_points`
  are not modelled, for the same reason. Tags enter the model as given
  integers.
- The parallel primitives (`tabulate`, `lower_bound`/`upper_bound` over
  key ranges, `transform_exclusive_scan`, `scatter_if`, `copy_if`,
  `sort_by_key`) are modelled as sequential loops or functions with the
  same result.
- `TagSort.SortByTags`: `sort_by_key` is modelled by an insertion sort. It
  is stable, but stability is not promised, because the library's sort
  gives no such guarantee.
- `reorder_destructive` is modelled as a gather through the index array.
- Periodic domains are not modelled. The flag is stored but nothing shown
  applies it.
- The incremental variants (`add_points_at_end_impl`,
  `delete_points_at_end_impl`, `copy_points_impl`) are not modelled.
  Adding and copying points update the tags, then sort and build again.
  Deleting points truncates the tags and builds again without sorting.
- `get_buckets_near_point`, `tree_query_iterator`, `depth_first_iterator`
  and the `get_children(bucket, bounds)` root overload are not modelled.
  The subtree walk (`get_subtree`) is modelled as a pre-order list of the
  subtree's buckets (`Fmm.Subtree`), an abstraction of the
  depth-first iterator. Its order does not matter for a multiset sum. The
  leaf step of the sweep folds over the subtree directly (`Fmm.P2PSubtree`).
- `OctTreeNavigation.GetBucket`: the encoding of `is_leaf` on an EMPTY
  slot is defined outside this model. The descent continues only while
  the slot is internal, and the contract does not say whether the slot
  reached is a leaf or EMPTY.
- `OctTreeNavigation.GetBucket` and `Fmm.EvaluateExpansion`: the
  connection between a point's box and its tag is not modelled, because
  `point_to_tag` is not part of this model. `evaluate_expansion` is
  modelled at a bucket of the tree of non-empty buckets, given as a path
  of child positions. That covers query points whose cell is a non-empty
  leaf, such as the particle positions themselves.
- `Fmm.EvaluateExpansion`: evaluation at a point whose `get_bucket` slot
  is EMPTY is not modelled. `go_to` does not skip EMPTY slots, so such a
  point reaches one. Neither sweep writes the `m_g` and `m_connectivity`
  entries of an EMPTY slot, because the child iterator skips it, and
  `resize` keeps whatever was there. The source then returns no particle's
  contribution, or stale data from an earlier tree. If `is_leaf` does not
  hold on EMPTY, the assertion of `get_children` fires instead.
- `OctTreeBuild.BuildTree` requires sorted tags, as `lower_bound` does.
  Every caller of `build_tree` except `delete_points_at_end_impl` calls
  `sort_by_tags` first. That one truncates already sorted tags to a
  prefix, and a prefix of sorted tags is sorted.
- The FMM runs over an abstract tree of non-empty buckets: the child
  iterator's view of the node array. It is not derived from the flat
  arrays. The per-bucket arrays `m_W`, `m_g` and `m_connectivity`, sized
  by `number_of_buckets()`, are per-bucket fields and results.
- `Fmm.GemvExactlyOnce` requires that the leaves of that tree hold each
  particle 0..N-1 once. `OctTreeBuild.LeavesPartitionParticles` proves
  this for the flat leaf array.
- Logging, `print_nodes`, the Python bindings, the simulation driver, the
  force laws and the tests are not modelled.
- The 32-bit arithmetic of the tags is unbounded here.
  `Morton.DefaultMaxLevelBounds` shows that at the default depth the root
  tag interval ends at or below 2^30. `Morton.DefaultMasksFit` shows
  that every search key `mask + length` then stays below 2^30. That tags
  themselves are below the limit depends on `point_to_tag`, which is not
  part of this model.

## Notes

- Leaves are appended level by level. The leaf array is therefore in
  level order, and its ranges are not increasing across levels. What
  holds, and what is proved, is that the leaf ranges cover every particle
  exactly once (`OctTreeBuild.LeavesPartitionParticles`).
- The top-level branch of the downward sweep is chosen by an empty
  inherited list, not by depth. If a bucket's connected list becomes
  empty below the root's children (possible only when the test rejects
  some box against itself), that bucket's children restart from the
  root's children without L2L. The exactly-once property still holds in that case.
  `Fmm.DownSelfConnected` shows the restart cannot happen when the test
  accepts every box against itself.
