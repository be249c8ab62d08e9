/** `lower_bound` / `upper_bound` over the sorted tag array, as used by the
    tree builder to find each child's particle range. */
module Search {

  ghost predicate Sorted(s: seq<int>)
  {
    forall i, j :: 0 <= i < j < |s| ==> s[i] <= s[j]
  }

  /** Reference definition: the first position whose tag is not below `key`
      (the length of the longest prefix of tags below `key`). */
  function LowerBound(tags: seq<int>, key: int): (r: nat)
    ensures r <= |tags|
  {
    if |tags| == 0 || key <= tags[0] then 0 else 1 + LowerBound(tags[1..], key)
  }

  /** The lower bound splits the tags: every tag before it is below `key`,
      the tag at it is not, and on sorted tags no later tag is either. */
  lemma {:induction false} LowerBoundSplits(tags: seq<int>, key: int)
    ensures forall i :: 0 <= i < LowerBound(tags, key) ==> tags[i] < key
    ensures LowerBound(tags, key) < |tags| ==> key <= tags[LowerBound(tags, key)]
    ensures Sorted(tags) ==> forall i :: LowerBound(tags, key) <= i < |tags| ==> key <= tags[i]
  {
    if |tags| > 0 && tags[0] < key {
      LowerBoundSplits(tags[1..], key);
    }
  }

  /** A larger key never has an earlier lower bound, so the ranges computed
      from increasing masks never cross. */
  lemma {:induction false} LowerBoundMonotone(tags: seq<int>, a: int, b: int)
    requires a <= b
    ensures LowerBound(tags, a) <= LowerBound(tags, b)
  {
    LowerBoundSplits(tags, a);
    LowerBoundSplits(tags, b);
  }

  /** Tags that all lie in `[0, limit)` put the whole array between the
      lower bounds of 0 and of `limit`. */
  lemma {:induction false} LowerBoundOfRange(tags: seq<int>, limit: int)
    requires forall i :: 0 <= i < |tags| ==> 0 <= tags[i] < limit
    ensures LowerBound(tags, 0) == 0
    ensures LowerBound(tags, limit) == |tags|
  {
    if |tags| > 0 {
      LowerBoundOfRange(tags[1..], limit);
    }
  }

  /** Any position that splits the tags into "below `key`" and "not below
      `key`" is the lower bound: the characterisation fixes the position. */
  lemma {:induction false} LowerBoundUnique(tags: seq<int>, key: int, p: nat)
    requires p <= |tags|
    requires forall i :: 0 <= i < p ==> tags[i] < key
    requires forall i :: p <= i < |tags| ==> key <= tags[i]
    ensures p == LowerBound(tags, key)
  {
    if |tags| > 0 && tags[0] < key {
      LowerBoundUnique(tags[1..], key, p - 1);
    }
  }

  /** On sorted tags the positions between the lower bounds of `lo` and
      `hi` are exactly those whose tag lies in `[lo, hi)`. */
  lemma {:induction false} LowerBoundRange(tags: seq<int>, lo: int, hi: int, i: int)
    requires Sorted(tags)
    ensures LowerBound(tags, lo) <= i < LowerBound(tags, hi) <==> 0 <= i < |tags| && lo <= tags[i] < hi
  {
    LowerBoundSplits(tags, lo);
    LowerBoundSplits(tags, hi);
  }

  /** `lower_bound`: binary search for the first tag `>= key`. */
  method LowerBoundSearch(tags: seq<int>, key: int) returns (lo: nat)
    requires Sorted(tags)
    ensures lo <= |tags|
    ensures forall i :: 0 <= i < lo ==> tags[i] < key
    ensures forall i :: lo <= i < |tags| ==> key <= tags[i]
    ensures lo == LowerBound(tags, key)
  {
    lo := 0;
    var hi := |tags|;
    while lo < hi
      invariant 0 <= lo <= hi <= |tags|
      invariant forall i :: 0 <= i < lo ==> tags[i] < key
      invariant forall i :: hi <= i < |tags| ==> key <= tags[i]
      decreases hi - lo
    {
      var mid := (lo + hi) / 2;
      if tags[mid] < key {
        lo := mid + 1;
      } else {
        hi := mid;
      }
    }
    LowerBoundUnique(tags, key, lo);
  }

  /** `upper_bound`: binary search for the first tag `> key`. On integer tags
      that is the lower bound of `key + 1`. */
  method UpperBoundSearch(tags: seq<int>, key: int) returns (lo: nat)
    requires Sorted(tags)
    ensures lo <= |tags|
    ensures forall i :: 0 <= i < lo ==> tags[i] <= key
    ensures forall i :: lo <= i < |tags| ==> key < tags[i]
    ensures lo == LowerBound(tags, key + 1)
  {
    lo := 0;
    var hi := |tags|;
    while lo < hi
      invariant 0 <= lo <= hi <= |tags|
      invariant forall i :: 0 <= i < lo ==> tags[i] <= key
      invariant forall i :: hi <= i < |tags| ==> key < tags[i]
      decreases hi - lo
    {
      var mid := (lo + hi) / 2;
      if tags[mid] <= key {
        lo := mid + 1;
      } else {
        hi := mid;
      }
    }
    LowerBoundUnique(tags, key + 1, lo);
  }
}
