/** `octtree::sort_by_tags`: sort the particle tags and apply the same
    permutation to the particles. The library fills an index array with
    0, 1, ..., n-1, sorts it by tag (`sort_by_key`) and then gathers the
    particles through it (`reorder_destructive`); the parallel sort is
    modelled by a sequential insertion sort over (tag, index) pairs. */
module TagSort {
  import opened Search

  /** One entry of the `sort_by_key` pass: a tag and the original index of
      its particle. */
  datatype Keyed = Keyed(tag: int, index: nat)

  ghost predicate KeysSorted(s: seq<Keyed>)
  {
    forall i, j :: 0 <= i < j < |s| ==> s[i].tag <= s[j].tag
  }

  /** Insert `x` after every entry whose tag is not above its own. */
  function Insert(s: seq<Keyed>, x: Keyed): (r: seq<Keyed>)
    ensures |r| == |s| + 1
    ensures multiset(r) == multiset(s) + multiset{x}
  {
    if |s| == 0 || x.tag < s[0].tag then [x] + s
    else
      assert s == [s[0]] + s[1..];
      [s[0]] + Insert(s[1..], x)
  }

  /** Inserting into a sorted sequence keeps it sorted. */
  lemma {:induction false} InsertSorted(s: seq<Keyed>, x: Keyed)
    requires KeysSorted(s)
    ensures KeysSorted(Insert(s, x))
  {
    if |s| > 0 && x.tag >= s[0].tag {
      var rest := Insert(s[1..], x);
      InsertSorted(s[1..], x);
      forall k | 0 <= k < |rest|
        ensures s[0].tag <= rest[k].tag
      {
        if rest[k] != x {
          assert rest[k] in multiset(rest);
          assert rest[k] in multiset(s[1..]);
          var i :| 0 <= i < |s[1..]| && s[1..][i] == rest[k];
          assert s[i + 1] == rest[k];
        }
      }
      assert Insert(s, x) == [s[0]] + rest;
    }
  }

  /** Insertion sort by tag. */
  function SortKeyed(s: seq<Keyed>): (r: seq<Keyed>)
    ensures |r| == |s|
    ensures multiset(r) == multiset(s)
    ensures KeysSorted(r)
  {
    if |s| == 0 then []
    else
      var m := |s| - 1;
      assert s == s[..m] + [s[m]];
      InsertSorted(SortKeyed(s[..m]), s[m]);
      Insert(SortKeyed(s[..m]), s[m])
  }

  /** `detail::sequence`: the indices 0, 1, ..., n-1. */
  function Iota(n: nat): (r: seq<nat>)
    ensures |r| == n && forall i :: 0 <= i < n ==> r[i] == i
  {
    seq(n, i => i)
  }

  /** The original indices of a sequence of keyed entries, in order. */
  function Indices(s: seq<Keyed>): (r: seq<nat>)
    ensures |r| == |s| && forall i :: 0 <= i < |s| ==> r[i] == s[i].index
  {
    seq(|s|, i requires 0 <= i < |s| => s[i].index)
  }

  lemma {:induction false} IndicesAppend(a: seq<Keyed>, b: seq<Keyed>)
    ensures Indices(a + b) == Indices(a) + Indices(b)
  {
  }

  /** Removing entry `k` removes its index. */
  lemma {:induction false} IndicesRemove(b: seq<Keyed>, k: nat)
    requires k < |b|
    ensures multiset(Indices(b)) == multiset(Indices(b[..k] + b[k + 1..])) + multiset{b[k].index}
  {
    assert b == b[..k] + [b[k]] + b[k + 1..];
    IndicesAppend(b[..k] + [b[k]], b[k + 1..]);
    IndicesAppend(b[..k], [b[k]]);
    IndicesAppend(b[..k], b[k + 1..]);
  }

  /** Removing entry `k` removes one copy of it. */
  lemma {:induction false} RemoveAt(b: seq<Keyed>, k: nat)
    requires k < |b|
    ensures multiset(b[..k] + b[k + 1..]) == multiset(b) - multiset{b[k]}
  {
    assert b == b[..k] + [b[k]] + b[k + 1..];
    assert multiset(b) == multiset(b[..k]) + multiset{b[k]} + multiset(b[k + 1..]);
  }

  /** Adding an entry at the end adds its index. */
  lemma {:induction false} IndicesSnoc(a: seq<Keyed>)
    requires |a| > 0
    ensures multiset(Indices(a)) == multiset(Indices(a[..|a| - 1])) + multiset{a[|a| - 1].index}
  {
    var m := |a| - 1;
    assert a == a[..m] + [a[m]];
    IndicesAppend(a[..m], [a[m]]);
    assert Indices([a[m]]) == [a[m].index];
  }

  /** Two sequences holding the same entries hold the same indices. */
  lemma {:induction false} IndicesOfPermutation(a: seq<Keyed>, b: seq<Keyed>)
    requires multiset(a) == multiset(b)
    ensures multiset(Indices(a)) == multiset(Indices(b))
    decreases |a|
  {
    if |a| == 0 {
      assert |b| == |multiset(b)| == 0;
    } else {
      var m := |a| - 1;
      var x := a[m];
      assert x in multiset(b) by {
        assert a == a[..m] + [x];
      }
      var k :| 0 <= k < |b| && b[k] == x;
      var b' := b[..k] + b[k + 1..];
      assert multiset(a[..m]) == multiset(b') by {
        assert a == a[..m] + [x];
        assert multiset(a[..m]) == multiset(a) - multiset{x};
        RemoveAt(b, k);
      }
      IndicesOfPermutation(a[..m], b');
      IndicesRemove(b, k);
      IndicesSnoc(a);
    }
  }

  /** The particles gathered through the sorted indices: entry `i` is the
      particle the index array names at `i`. */
  function Reorder<P>(perm: seq<nat>, particles: seq<P>): (r: seq<P>)
    requires forall i :: 0 <= i < |perm| ==> perm[i] < |particles|
    ensures |r| == |perm|
  {
    seq(|perm|, i requires 0 <= i < |perm| => particles[perm[i]])
  }

  /** Gathering distributes over concatenation of index arrays. */
  lemma {:induction false} ReorderAppend<P>(a: seq<nat>, b: seq<nat>, particles: seq<P>)
    requires forall i :: 0 <= i < |a| ==> a[i] < |particles|
    requires forall i :: 0 <= i < |b| ==> b[i] < |particles|
    ensures forall i :: 0 <= i < |a + b| ==> (a + b)[i] < |particles|
    ensures Reorder(a + b, particles) == Reorder(a, particles) + Reorder(b, particles)
  {
    assert forall i :: 0 <= i < |a + b| ==> (a + b)[i] == if i < |a| then a[i] else b[i - |a|];
  }

  lemma {:induction false} MultisetMiddle<T>(a: seq<T>, b: seq<T>, c: seq<T>)
    ensures multiset(a + b + c) == multiset(a + c) + multiset(b)
  {
    assert multiset(a + b + c) == multiset(a) + multiset(b) + multiset(c);
    assert multiset(a + c) == multiset(a) + multiset(c);
  }

  /** Removing index `k` from the index array removes its particle from the
      gathered particles. */
  lemma {:induction false} ReorderRemoveAt<P>(b: seq<nat>, k: nat, b': seq<nat>, particles: seq<P>)
    requires k < |b| && b' == b[..k] + b[k + 1..]
    requires forall i :: 0 <= i < |b| ==> b[i] < |particles|
    requires forall i :: 0 <= i < |b'| ==> b'[i] < |particles|
    ensures multiset(Reorder(b, particles)) == multiset(Reorder(b', particles)) + multiset{particles[b[k]]}
  {
    var lo: seq<nat>, hi: seq<nat> := b[..k], b[k + 1..];
    assert b == lo + [b[k]] + hi;
    ReorderAppend(lo, hi, particles);
    ReorderAppend(lo, [b[k]], particles);
    ReorderAppend(lo + [b[k]], hi, particles);
    assert Reorder([b[k]], particles) == [particles[b[k]]];
    MultisetMiddle(Reorder(lo, particles), [particles[b[k]]], Reorder(hi, particles));
  }

  /** Gathering through two index arrays that hold the same indices gathers
      the same particles, in some order. */
  lemma {:induction false} ReorderOfPermutation<P>(a: seq<nat>, b: seq<nat>, particles: seq<P>)
    requires multiset(a) == multiset(b)
    requires forall i :: 0 <= i < |a| ==> a[i] < |particles|
    requires forall i :: 0 <= i < |b| ==> b[i] < |particles|
    ensures multiset(Reorder(a, particles)) == multiset(Reorder(b, particles))
    decreases |a|
  {
    if |a| == 0 {
      assert |b| == |multiset(b)| == 0;
    } else {
      var m := |a| - 1;
      var x: nat := a[m];
      assert x in multiset(b) by {
        assert a == a[..m] + [x];
      }
      var k :| 0 <= k < |b| && b[k] == x;
      var b' := b[..k] + b[k + 1..];
      assert forall i :: 0 <= i < |b'| ==> b'[i] < |particles| by {
        assert forall i :: 0 <= i < |b'| ==> b'[i] == if i < k then b[i] else b[i + 1];
      }
      assert a[..m] + a[m + 1..] == a[..m];
      ReorderRemoveAt(a, m, a[..m], particles);
      ReorderRemoveAt(b, k, b', particles);
      assert multiset(a[..m]) == multiset(b') by {
        RemoveAtMultiset(a, m);
        RemoveAtMultiset(b, k);
      }
      ReorderOfPermutation(a[..m], b', particles);
    }
  }

  lemma {:induction false} RemoveAtMultiset<T>(s: seq<T>, k: nat)
    requires k < |s|
    ensures multiset(s[..k] + s[k + 1..]) == multiset(s) - multiset{s[k]}
  {
    assert s == s[..k] + [s[k]] + s[k + 1..];
    MultisetMiddle(s[..k], [s[k]], s[k + 1..]);
  }

  /** `reorder_destructive` through a permutation of 0..n-1 rearranges the
      particles: the same particles, each as often as before. */
  lemma {:induction false} ReorderPermutes<P>(perm: seq<nat>, particles: seq<P>)
    requires multiset(perm) == multiset(Iota(|particles|))
    ensures forall i :: 0 <= i < |perm| ==> perm[i] < |particles|
    ensures |Reorder(perm, particles)| == |particles|
    ensures multiset(Reorder(perm, particles)) == multiset(particles)
  {
    var n := |particles|;
    forall i | 0 <= i < |perm|
      ensures perm[i] < n
    {
      assert perm[i] in multiset(Iota(n));
    }
    assert |perm| == |multiset(perm)| == |Iota(n)|;
    ReorderOfPermutation(perm, Iota(n), particles);
    assert Reorder(Iota(n), particles) == particles;
  }

  /** Every sorted entry is one of the keyed tags, so its index is in range
      and its tag is the tag at that index. */
  lemma {:induction false} SortedEntriesAreKeyed(tags: seq<int>, keyed: seq<Keyed>, sorted: seq<Keyed>)
    requires |keyed| == |tags| && forall i :: 0 <= i < |tags| ==> keyed[i] == Keyed(tags[i], i)
    requires multiset(sorted) == multiset(keyed)
    ensures forall i :: 0 <= i < |sorted| ==>
              sorted[i].index < |tags| && sorted[i].tag == tags[sorted[i].index]
  {
    forall i | 0 <= i < |sorted|
      ensures sorted[i].index < |tags| && sorted[i].tag == tags[sorted[i].index]
    {
      assert sorted[i] in multiset(keyed);
      var j :| 0 <= j < |keyed| && keyed[j] == sorted[i];
    }
  }

  /** `sort_by_tags`: on success the tags are ascending, the index array is a
      permutation of 0..n-1, and tags and particles are both rearranged by
      it. With no tags nothing changes. */
  method SortByTags<P>(tags: seq<int>, particles: seq<P>)
    returns (tags': seq<int>, particles': seq<P>, perm: seq<nat>)
    requires |particles| == |tags|
    ensures |tags'| == |tags| && |particles'| == |particles| && |perm| == |tags|
    ensures Sorted(tags')
    ensures multiset(perm) == multiset(Iota(|tags|))
    ensures forall i :: 0 <= i < |perm| ==>
              perm[i] < |tags| && tags'[i] == tags[perm[i]] && particles'[i] == particles[perm[i]]
    ensures multiset(particles') == multiset(particles)
    ensures |tags| == 0 ==> tags' == tags && particles' == particles
  {
    if |tags| == 0 {
      return tags, particles, [];
    }
    var n := |tags|;
    var indices := Iota(n);
    var keyed := seq(n, i requires 0 <= i < n => Keyed(tags[i], indices[i]));
    var sorted := SortKeyed(keyed);
    SortedEntriesAreKeyed(tags, keyed, sorted);
    tags' := seq(n, i requires 0 <= i < n => sorted[i].tag);
    perm := Indices(sorted);
    assert Indices(keyed) == indices;
    IndicesOfPermutation(sorted, keyed);
    particles' := Reorder(perm, particles);
    ReorderPermutes(perm, particles);
  }
}
