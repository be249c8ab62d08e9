/** Multisets of particle indices: the symbolic currency of the model. A
    particle is identified by its index in the tag-sorted particle sequence. */
module Spans {

  /** The particle indices lo, lo + 1, ..., hi - 1, each exactly once; empty
      when hi <= lo. This is the particle set of an `[lo, hi)` leaf range. */
  function Span(lo: nat, hi: nat): (m: multiset<nat>)
    ensures forall i :: m[i] == if lo <= i < hi then 1 else 0
    decreases hi - lo
  {
    if hi <= lo then multiset{} else multiset{lo} + Span(lo + 1, hi)
  }

  /** `k` copies of every element of `m`. */
  function Times(k: nat, m: multiset<nat>): (r: multiset<nat>)
    ensures forall x :: r[x] == k * m[x]
  {
    if k == 0 then multiset{} else m + Times(k - 1, m)
  }

  lemma TimesAdd(a: nat, b: nat, m: multiset<nat>)
    ensures Times(a + b, m) == Times(a, m) + Times(b, m)
  {
    assert forall x :: Times(a + b, m)[x] == (Times(a, m) + Times(b, m))[x] by {
      forall x ensures (a + b) * m[x] == a * m[x] + b * m[x] {
      }
    }
  }
}
