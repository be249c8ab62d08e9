/** The tree walk of `FastMultipoleMethod`: the upward sweep (P2M at the
    leaves, M2M into the parents), the downward sweep (L2L from the parent,
    M2L from well-separated buckets, L2P and P2P at the leaves), `gemv`,
    `calculate_expansions` and `evaluate_expansion`.

    The expansions are symbolic: a multipole expansion `W` and a local
    expansion `g` are multisets of source particle indices, and so is every
    entry of the target vector. P2M and P2P deliver the particles of a
    bucket, M2M, M2L and L2L add or copy multisets, and L2P reads one. The
    well-separation test `theta.check` is an arbitrary predicate on the
    target and source boxes. */
module Fmm {
  import opened Results
  import opened Spans
  import opened OctTreeNavigation

  /** A non-empty bucket of the tree as the child iterator presents it:
      a leaf with its particle range `[lo, hi)`, or an internal bucket with
      its non-empty children in child order. `w` is the bucket's entry of
      `m_W`, its multipole expansion. */
  datatype Bucket =
    | Leaf(box: Box, lo: nat, hi: nat, w: multiset<nat>)
    | Internal(box: Box, children: seq<Bucket>, w: multiset<nat>)

  /** The particles under a bucket: its own range for a leaf, the
      particles of all its leaves otherwise. */
  function Particles(b: Bucket): (r: multiset<nat>)
    decreases b
  {
    match b
    case Leaf(_, lo, hi, _) => Span(lo, hi)
    case Internal(_, cs, _) => ParticlesOf(cs)
  }

  function ParticlesOf(bs: seq<Bucket>): (r: multiset<nat>)
    decreases bs
  {
    if |bs| == 0 then multiset{} else ParticlesOf(bs[..|bs| - 1]) + Particles(bs[|bs| - 1])
  }

  lemma {:induction false} ParticlesOfAppend(a: seq<Bucket>, b: seq<Bucket>)
    ensures ParticlesOf(a + b) == ParticlesOf(a) + ParticlesOf(b)
    decreases |b|
  {
    if |b| == 0 {
      assert a + b == a;
    } else {
      var m := |b| - 1;
      assert (a + b)[..|a + b| - 1] == a + b[..m];
      assert (a + b)[|a + b| - 1] == b[m];
      ParticlesOfAppend(a, b[..m]);
    }
  }

  /** Two trees of the same shape: the same boxes, the same leaf ranges and
      the same children; only the stored expansions may differ. */
  predicate SameShape(a: Bucket, b: Bucket)
    decreases a
  {
    match a
    case Leaf(box, lo, hi, _) => b.Leaf? && b.box == box && b.lo == lo && b.hi == hi
    case Internal(box, cs, _) =>
      && b.Internal? && b.box == box && |b.children| == |cs|
      && forall i :: 0 <= i < |cs| ==> SameShape(cs[i], b.children[i])
  }

  lemma {:induction false} SameShapeParticles(a: Bucket, b: Bucket)
    requires SameShape(a, b)
    ensures Particles(a) == Particles(b)
    decreases a, 1
  {
    if a.Internal? {
      SameShapeParticlesOf(a.children, b.children);
    }
  }

  lemma {:induction false} SameShapeParticlesOf(a: seq<Bucket>, b: seq<Bucket>)
    requires |a| == |b| && forall i :: 0 <= i < |a| ==> SameShape(a[i], b[i])
    ensures ParticlesOf(a) == ParticlesOf(b)
    decreases a, 0
  {
    if |a| > 0 {
      var m := |a| - 1;
      SameShapeParticlesOf(a[..m], b[..m]);
      SameShapeParticles(a[m], b[m]);
    }
  }

  /** Every bucket of the tree stores the multiset of its own particles as
      its multipole expansion. */
  ghost predicate WCorrect(b: Bucket)
    decreases b
  {
    && b.w == Particles(b)
    && (b.Internal? ==> forall i :: 0 <= i < |b.children| ==> WCorrect(b.children[i]))
  }

  ghost predicate AllWCorrect(bs: seq<Bucket>)
  {
    forall b :: b in bs ==> WCorrect(b)
  }

  // ---------------------------------------------------------------------
  // Upward sweep
  // ---------------------------------------------------------------------

  /** M2M into a parent: the sum of the children's expansions. */
  function SumW(bs: seq<Bucket>): (r: multiset<nat>)
  {
    if |bs| == 0 then multiset{} else SumW(bs[..|bs| - 1]) + bs[|bs| - 1].w
  }

  lemma {:induction false} SumWOfCorrect(bs: seq<Bucket>)
    requires forall i :: 0 <= i < |bs| ==> bs[i].w == Particles(bs[i])
    ensures SumW(bs) == ParticlesOf(bs)
  {
    if |bs| > 0 {
      SumWOfCorrect(bs[..|bs| - 1]);
    }
  }

  /** `calculate_dive_P2M_and_M2M`: the expansion of a bucket is zeroed,
      then a leaf receives P2M of its own particles and an internal bucket
      the M2M of each child's freshly computed expansion. Afterwards every
      bucket's expansion is exactly the multiset of the particles under it,
      and nothing but the expansions has changed. */
  function Up(b: Bucket): (r: Bucket)
    ensures SameShape(b, r) && WCorrect(r)
    decreases b
  {
    match b
    case Leaf(box, lo, hi, _) => Leaf(box, lo, hi, Span(lo, hi))
    case Internal(box, cs, _) =>
      var cs' := UpAll(cs);
      SumWOfCorrect(cs');
      Internal(box, cs', SumW(cs'))
  }

  function UpAll(bs: seq<Bucket>): (rs: seq<Bucket>)
    ensures |rs| == |bs|
    ensures forall i :: 0 <= i < |bs| ==> SameShape(bs[i], rs[i]) && WCorrect(rs[i])
    decreases bs
  {
    seq(|bs|, i requires 0 <= i < |bs| => Up(bs[i]))
  }

  /** The upward sweep leaves the particles of every subtree unchanged. */
  lemma {:induction false} UpAllParticles(bs: seq<Bucket>)
    ensures ParticlesOf(UpAll(bs)) == ParticlesOf(bs)
    ensures AllWCorrect(UpAll(bs))
  {
    SameShapeParticlesOf(bs, UpAll(bs));
  }

  // ---------------------------------------------------------------------
  // Downward sweep: the interaction list of one target bucket
  // ---------------------------------------------------------------------

  /** A bucket's local expansion `g` (its entry of `m_g`) and its list of
      strongly connected buckets (its entry of `m_connectivity`). */
  datatype Interaction = Interaction(g: multiset<nat>, conn: seq<Bucket>)

  /** One pass over candidate source buckets: a candidate the test accepts
      is pushed onto the connected list, any other is folded into `g` by
      M2L of its expansion. */
  function Split(tbox: Box, cands: seq<Bucket>, check: (Box, Box) -> bool): (r: Interaction)
  {
    if |cands| == 0 then Interaction(multiset{}, [])
    else
      var r := Split(tbox, cands[..|cands| - 1], check);
      var cj := cands[|cands| - 1];
      if check(tbox, cj.box) then Interaction(r.g, r.conn + [cj])
      else Interaction(r.g + cj.w, r.conn)
  }

  /** Every candidate ends up either connected or in `g`: `g` together
      with the connected buckets' particles is all of the candidates'
      particles. */
  lemma {:induction false} SplitCovers(tbox: Box, cands: seq<Bucket>, check: (Box, Box) -> bool)
    requires AllWCorrect(cands)
    ensures Split(tbox, cands, check).g + ParticlesOf(Split(tbox, cands, check).conn) == ParticlesOf(cands)
    ensures AllWCorrect(Split(tbox, cands, check).conn)
  {
    SplitKeepsAccepted(tbox, cands, check);
    if |cands| > 0 {
      var m := |cands| - 1;
      var r := Split(tbox, cands[..m], check);
      var cj := cands[m];
      assert AllWCorrect(cands[..m]) by {
        assert cands == cands[..m] + [cj];
      }
      SplitCovers(tbox, cands[..m], check);
      assert r.g + ParticlesOf(r.conn) == ParticlesOf(cands[..m]);
      if check(tbox, cj.box) {
        assert ParticlesOf(r.conn + [cj]) == ParticlesOf(r.conn) + Particles(cj) by {
          ParticlesOfAppend(r.conn, [cj]);
          assert [cj][..0] == [];
        }
      } else {
        assert cj.w == Particles(cj) by {
          assert cj in cands;
        }
      }
    }
  }

  /** The connected list holds only candidates the test accepts. */
  lemma {:induction false} SplitKeepsAccepted(tbox: Box, cands: seq<Bucket>, check: (Box, Box) -> bool)
    ensures forall c :: c in Split(tbox, cands, check).conn ==> c in cands && check(tbox, c.box)
  {
    if |cands| > 0 {
      var m := |cands| - 1;
      SplitKeepsAccepted(tbox, cands[..m], check);
      assert cands == cands[..m] + [cands[m]];
    }
  }

  /** A candidate the test accepts is on the connected list. */
  lemma {:induction false} SplitConnectsAccepted(tbox: Box, cands: seq<Bucket>, check: (Box, Box) -> bool, k: nat)
    requires k < |cands| && check(tbox, cands[k].box)
    ensures cands[k] in Split(tbox, cands, check).conn
  {
    var m := |cands| - 1;
    if k < m {
      SplitConnectsAccepted(tbox, cands[..m], check, k);
    }
  }

  /** The loop over the parent's connected list: a connected leaf stays
      connected, a connected internal bucket is replaced by its children,
      each of which is connected or folded in by M2L. */
  function Inherit(tbox: Box, cp: seq<Bucket>, check: (Box, Box) -> bool): (r: Interaction)
  {
    if |cp| == 0 then Interaction(multiset{}, [])
    else
      var r := Inherit(tbox, cp[..|cp| - 1], check);
      var source := cp[|cp| - 1];
      match source
      case Leaf(_, _, _, _) => Interaction(r.g, r.conn + [source])
      case Internal(_, cs, _) =>
        var s := Split(tbox, cs, check);
        Interaction(r.g + s.g, r.conn + s.conn)
  }

  lemma {:induction false} InheritCovers(tbox: Box, cp: seq<Bucket>, check: (Box, Box) -> bool)
    requires AllWCorrect(cp)
    ensures Inherit(tbox, cp, check).g + ParticlesOf(Inherit(tbox, cp, check).conn) == ParticlesOf(cp)
    ensures AllWCorrect(Inherit(tbox, cp, check).conn)
  {
    if |cp| > 0 {
      var m := |cp| - 1;
      var r := Inherit(tbox, cp[..m], check);
      assert cp == cp[..m] + [cp[m]];
      InheritCovers(tbox, cp[..m], check);
      var source := cp[m];
      assert WCorrect(source);
      if source.Leaf? {
        ParticlesOfAppend(r.conn, [source]);
        assert ParticlesOf([source]) == Particles(source);
      } else {
        var s := Split(tbox, source.children, check);
        assert AllWCorrect(source.children) by {
          forall c | c in source.children
            ensures WCorrect(c)
          {
            var i :| 0 <= i < |source.children| && source.children[i] == c;
          }
        }
        SplitCovers(tbox, source.children, check);
        ParticlesOfAppend(r.conn, s.conn);
      }
    }
  }

  /** A connected leaf stays connected. */
  lemma {:induction false} InheritKeepsLeaves(tbox: Box, cp: seq<Bucket>, check: (Box, Box) -> bool, s: Bucket)
    requires s in cp && s.Leaf?
    ensures s in Inherit(tbox, cp, check).conn
  {
    var m := |cp| - 1;
    if cp[m] != s {
      assert s in cp[..m] by {
        assert cp == cp[..m] + [cp[m]];
      }
      InheritKeepsLeaves(tbox, cp[..m], check, s);
    }
  }

  /** A child of a connected internal bucket that the test accepts lands
      on the connected list. */
  lemma {:induction false} InheritKeeps(tbox: Box, cp: seq<Bucket>, check: (Box, Box) -> bool,
                                        s: Bucket, c: Bucket)
    requires s in cp && s.Internal? && c in s.children && check(tbox, c.box)
    ensures c in Inherit(tbox, cp, check).conn
  {
    var m := |cp| - 1;
    if cp[m] == s {
      var k :| 0 <= k < |s.children| && s.children[k] == c;
      SplitConnectsAccepted(tbox, s.children, check, k);
    } else {
      assert s in cp[..m] by {
        assert cp == cp[..m] + [cp[m]];
      }
      InheritKeeps(tbox, cp[..m], check, s, c);
    }
  }

  /** The interaction list of `calculate_dive_M2L_and_L2L` for target `n`.
      With an empty inherited list the candidates are the root's children
      and `g` starts from zero; otherwise `g` starts as the L2L copy of the
      parent's `g` and the candidates come from the parent's connected
      list. */
  function Interact(n: Bucket, cp: seq<Bucket>, gp: multiset<nat>, roots: seq<Bucket>,
                    check: (Box, Box) -> bool): (r: Interaction)
  {
    if |cp| == 0 then Split(n.box, roots, check)
    else
      var t := Inherit(n.box, cp, check);
      Interaction(gp + t.g, t.conn)
  }

  /** `g` plus the connected buckets' particles is everything the target
      has to hear from: all particles when starting from the root's
      children, the parent's share otherwise. */
  lemma {:induction false} InteractCovers(n: Bucket, cp: seq<Bucket>, gp: multiset<nat>,
                                          roots: seq<Bucket>, check: (Box, Box) -> bool)
    requires AllWCorrect(roots) && AllWCorrect(cp)
    ensures var it := Interact(n, cp, gp, roots, check);
            && it.g + ParticlesOf(it.conn) == (if |cp| == 0 then ParticlesOf(roots) else gp + ParticlesOf(cp))
            && AllWCorrect(it.conn)
  {
    if |cp| == 0 {
      SplitCovers(n.box, roots, check);
    } else {
      InheritCovers(n.box, cp, check);
    }
  }

  // ---------------------------------------------------------------------
  // Downward sweep: evaluation at the leaves
  // ---------------------------------------------------------------------

  /** Add `m` to the target entries of the particles `[lo, hi)`. */
  function AddRange(t: seq<multiset<nat>>, lo: nat, hi: nat, m: multiset<nat>): (r: seq<multiset<nat>>)
    ensures |r| == |t|
  {
    seq(|t|, i requires 0 <= i < |t| => if lo <= i < hi then t[i] + m else t[i])
  }

  /** P2P from every leaf of the subtree of `b` into the target leaf
      `[lo, hi)`: its particles receive the subtree's particles. */
  function P2PSubtree(t: seq<multiset<nat>>, lo: nat, hi: nat, b: Bucket): (r: seq<multiset<nat>>)
    ensures |r| == |t|
    ensures forall i :: 0 <= i < |t| ==> r[i] == if lo <= i < hi then t[i] + Particles(b) else t[i]
    decreases b
  {
    match b
    case Leaf(_, slo, shi, _) => AddRange(t, lo, hi, Span(slo, shi))
    case Internal(_, cs, _) => P2PForest(t, lo, hi, cs)
  }

  function P2PForest(t: seq<multiset<nat>>, lo: nat, hi: nat, bs: seq<Bucket>): (r: seq<multiset<nat>>)
    ensures |r| == |t|
    ensures forall i :: 0 <= i < |t| ==> r[i] == if lo <= i < hi then t[i] + ParticlesOf(bs) else t[i]
    decreases bs
  {
    if |bs| == 0 then t
    else P2PSubtree(P2PForest(t, lo, hi, bs[..|bs| - 1]), lo, hi, bs[|bs| - 1])
  }

  /** The leaf step of the downward sweep with a non-empty target: L2P of
      `g`, then P2P with each connected leaf and with every leaf under each
      connected internal bucket. Each particle of the leaf receives `g` and
      the particles of all connected buckets. */
  function LeafStep(t: seq<multiset<nat>>, lo: nat, hi: nat, it: Interaction): (r: seq<multiset<nat>>)
    ensures |r| == |t|
    ensures forall i :: 0 <= i < |t| ==>
              r[i] == if lo <= i < hi then t[i] + (it.g + ParticlesOf(it.conn)) else t[i]
  {
    P2PConnected(AddRange(t, lo, hi, it.g), lo, hi, it.conn)
  }

  function P2PConnected(t: seq<multiset<nat>>, lo: nat, hi: nat, conn: seq<Bucket>): (r: seq<multiset<nat>>)
    ensures |r| == |t|
    ensures forall i :: 0 <= i < |t| ==> r[i] == if lo <= i < hi then t[i] + ParticlesOf(conn) else t[i]
  {
    if |conn| == 0 then t
    else
      var t' := P2PConnected(t, lo, hi, conn[..|conn| - 1]);
      var cj := conn[|conn| - 1];
      if cj.Leaf? then AddRange(t', lo, hi, Span(cj.lo, cj.hi))
      else P2PForest(t', lo, hi, cj.children)
  }

  // ---------------------------------------------------------------------
  // Downward sweep: the recursion
  // ---------------------------------------------------------------------

  /** The stored `g` and connectivity of a bucket and of its children. */
  datatype Local = Local(g: multiset<nat>, conn: seq<Bucket>, children: seq<Local>)

  datatype Sweep = Sweep(target: seq<multiset<nat>>, local: Local)

  datatype ForestSweep = ForestSweep(target: seq<multiset<nat>>, locals: seq<Local>)

  /** `calculate_dive_M2L_and_L2L` on bucket `n`, given the parent's
      connected list `cp` and local expansion `gp`; `roots` are the root's
      children (with their expansions). An internal bucket passes its own
      list and `g` to each child in turn; a leaf evaluates into the target
      when the target is not empty. */
  function Down(n: Bucket, cp: seq<Bucket>, gp: multiset<nat>, roots: seq<Bucket>,
                check: (Box, Box) -> bool, t: seq<multiset<nat>>): (r: Sweep)
    ensures |r.target| == |t|
    decreases n
  {
    var it := Interact(n, cp, gp, roots, check);
    match n
    case Internal(_, cs, _) =>
      var f := DownForest(cs, it.conn, it.g, roots, check, t);
      Sweep(f.target, Local(it.g, it.conn, f.locals))
    case Leaf(_, lo, hi, _) =>
      if |t| > 0 then Sweep(LeafStep(t, lo, hi, it), Local(it.g, it.conn, []))
      else Sweep(t, Local(it.g, it.conn, []))
  }

  /** The sweep over a sequence of sibling buckets, in order, threading the
      target vector through. */
  function DownForest(bs: seq<Bucket>, cp: seq<Bucket>, gp: multiset<nat>, roots: seq<Bucket>,
                      check: (Box, Box) -> bool, t: seq<multiset<nat>>): (r: ForestSweep)
    ensures |r.target| == |t| && |r.locals| == |bs|
    decreases bs
  {
    if |bs| == 0 then ForestSweep(t, [])
    else
      var f := DownForest(bs[..|bs| - 1], cp, gp, roots, check, t);
      var s := Down(bs[|bs| - 1], cp, gp, roots, check, f.target);
      ForestSweep(s.target, f.locals + [s.local])
  }

  /** Every bucket's stored `g` together with its connected buckets'
      particles is exactly `all`, and the connected buckets' expansions are
      correct. */
  ghost predicate Covered(b: Bucket, l: Local, all: multiset<nat>)
    decreases b
  {
    && l.g + ParticlesOf(l.conn) == all
    && AllWCorrect(l.conn)
    && (b.Leaf? ==> |l.children| == 0)
    && (b.Internal? ==>
          && |l.children| == |b.children|
          && forall i :: 0 <= i < |b.children| ==> Covered(b.children[i], l.children[i], all))
  }

  /** What the sweep promises of the state it starts from: when the
      inherited list is not empty, it and the inherited `g` account for
      every particle exactly as often as `all` does. */
  ghost predicate Inherited(cp: seq<Bucket>, gp: multiset<nat>, roots: seq<Bucket>)
  {
    && AllWCorrect(roots) && AllWCorrect(cp)
    && (|cp| > 0 ==> gp + ParticlesOf(cp) == ParticlesOf(roots))
  }

  /** The downward sweep under `n` adds, to the target entry of every
      particle, all particles once per occurrence of that particle under
      `n`. */
  lemma {:induction false} DownTarget(n: Bucket, cp: seq<Bucket>, gp: multiset<nat>, roots: seq<Bucket>,
                                      check: (Box, Box) -> bool, t: seq<multiset<nat>>)
    requires Inherited(cp, gp, roots)
    ensures var r := Down(n, cp, gp, roots, check, t);
            forall i :: 0 <= i < |t| ==> r.target[i] == t[i] + Times(Particles(n)[i], ParticlesOf(roots))
    decreases n
  {
    var all := ParticlesOf(roots);
    var it := Interact(n, cp, gp, roots, check);
    InteractCovers(n, cp, gp, roots, check);
    assert Inherited(it.conn, it.g, roots);
    match n
    case Internal(_, cs, _) =>
      DownForestTarget(cs, it.conn, it.g, roots, check, t);
    case Leaf(_, lo, hi, _) =>
      var r := Down(n, cp, gp, roots, check, t);
      forall i | 0 <= i < |t|
        ensures r.target[i] == t[i] + Times(Particles(n)[i], all)
      {
        if lo <= i < hi {
          assert Times(1, all) == all;
        } else {
          assert Times(0, all) == multiset{};
        }
      }
  }

  lemma {:induction false} DownForestTarget(bs: seq<Bucket>, cp: seq<Bucket>, gp: multiset<nat>,
                                            roots: seq<Bucket>, check: (Box, Box) -> bool,
                                            t: seq<multiset<nat>>)
    requires Inherited(cp, gp, roots)
    ensures var r := DownForest(bs, cp, gp, roots, check, t);
            forall i :: 0 <= i < |t| ==> r.target[i] == t[i] + Times(ParticlesOf(bs)[i], ParticlesOf(roots))
    decreases bs
  {
    if |bs| > 0 {
      var all := ParticlesOf(roots);
      var m := |bs| - 1;
      var f := DownForest(bs[..m], cp, gp, roots, check, t);
      DownForestTarget(bs[..m], cp, gp, roots, check, t);
      DownTarget(bs[m], cp, gp, roots, check, f.target);
      var s := Down(bs[m], cp, gp, roots, check, f.target);
      forall i | 0 <= i < |t|
        ensures s.target[i] == t[i] + Times(ParticlesOf(bs)[i], all)
      {
        var a, b := ParticlesOf(bs[..m])[i], Particles(bs[m])[i];
        assert ParticlesOf(bs)[i] == a + b;
        AccumulateTwice(t[i], f.target[i], s.target[i], a, b, all);
      }
    }
  }

  /** Every interaction list the sweep under `n` stores covers all
      particles. */
  lemma {:induction false} DownCovered(n: Bucket, cp: seq<Bucket>, gp: multiset<nat>, roots: seq<Bucket>,
                                       check: (Box, Box) -> bool, t: seq<multiset<nat>>)
    requires Inherited(cp, gp, roots)
    ensures Covered(n, Down(n, cp, gp, roots, check, t).local, ParticlesOf(roots))
    decreases n
  {
    var it := Interact(n, cp, gp, roots, check);
    InteractCovers(n, cp, gp, roots, check);
    if n.Internal? {
      DownForestCovered(n.children, it.conn, it.g, roots, check, t);
    }
  }

  lemma {:induction false} DownForestCovered(bs: seq<Bucket>, cp: seq<Bucket>, gp: multiset<nat>,
                                             roots: seq<Bucket>, check: (Box, Box) -> bool,
                                             t: seq<multiset<nat>>)
    requires Inherited(cp, gp, roots)
    ensures var r := DownForest(bs, cp, gp, roots, check, t);
            forall k :: 0 <= k < |bs| ==> Covered(bs[k], r.locals[k], ParticlesOf(roots))
    decreases bs
  {
    if |bs| > 0 {
      var m := |bs| - 1;
      var f := DownForest(bs[..m], cp, gp, roots, check, t);
      DownForestCovered(bs[..m], cp, gp, roots, check, t);
      DownCovered(bs[m], cp, gp, roots, check, f.target);
    }
  }

  /** Two sweeps delivering `all` `a` and then `b` times deliver it
      `a + b` times. */
  lemma {:induction false} AccumulateTwice(x: multiset<nat>, y: multiset<nat>, z: multiset<nat>,
                                           a: nat, b: nat, all: multiset<nat>)
    requires y == x + Times(a, all) && z == y + Times(b, all)
    ensures z == x + Times(a + b, all)
  {
    TimesAdd(a, b, all);
  }

  /** The stored `g` and connectivity never depend on the target vector:
      a sweep with an empty target stores the same as any other. */
  lemma {:induction false} DownLocalIndependent(n: Bucket, cp: seq<Bucket>, gp: multiset<nat>,
                                                roots: seq<Bucket>, check: (Box, Box) -> bool,
                                                t1: seq<multiset<nat>>, t2: seq<multiset<nat>>)
    ensures Down(n, cp, gp, roots, check, t1).local == Down(n, cp, gp, roots, check, t2).local
    decreases n
  {
    if n.Internal? {
      var it := Interact(n, cp, gp, roots, check);
      DownForestLocalIndependent(n.children, it.conn, it.g, roots, check, t1, t2);
    }
  }

  lemma {:induction false} DownForestLocalIndependent(bs: seq<Bucket>, cp: seq<Bucket>, gp: multiset<nat>,
                                                      roots: seq<Bucket>, check: (Box, Box) -> bool,
                                                      t1: seq<multiset<nat>>, t2: seq<multiset<nat>>)
    ensures DownForest(bs, cp, gp, roots, check, t1).locals == DownForest(bs, cp, gp, roots, check, t2).locals
    decreases bs
  {
    if |bs| > 0 {
      var m := |bs| - 1;
      DownForestLocalIndependent(bs[..m], cp, gp, roots, check, t1, t2);
      DownLocalIndependent(bs[m], cp, gp, roots, check,
                           DownForest(bs[..m], cp, gp, roots, check, t1).target,
                           DownForest(bs[..m], cp, gp, roots, check, t2).target);
    }
  }

  // ---------------------------------------------------------------------
  // The connected list is never empty below the root's children
  // ---------------------------------------------------------------------

  /** Every bucket is on its own connected list, and so are all buckets
      under it. */
  ghost predicate SelfConnected(b: Bucket, l: Local)
    decreases b
  {
    && b in l.conn
    && (b.Internal? ==>
          && |l.children| == |b.children|
          && forall i :: 0 <= i < |b.children| ==> SelfConnected(b.children[i], l.children[i]))
  }

  /** `n` is a candidate of its own interaction list: one of the root's
      children under the top-level branch, or a child of a connected
      internal bucket. */
  ghost predicate Candidate(n: Bucket, cp: seq<Bucket>, roots: seq<Bucket>)
  {
    if |cp| == 0 then n in roots else exists s :: s in cp && s.Internal? && n in s.children
  }

  /** When the test accepts every box against itself, each bucket keeps
      itself on its connected list, so every list passed down is non-empty
      and the top-level branch is taken only for the root's children. */
  lemma {:induction false} DownSelfConnected(n: Bucket, cp: seq<Bucket>, gp: multiset<nat>,
                                             roots: seq<Bucket>, check: (Box, Box) -> bool,
                                             t: seq<multiset<nat>>)
    requires forall b :: check(b, b)
    requires Candidate(n, cp, roots)
    ensures SelfConnected(n, Down(n, cp, gp, roots, check, t).local)
    decreases n
  {
    var it := Interact(n, cp, gp, roots, check);
    if |cp| == 0 {
      var k :| 0 <= k < |roots| && roots[k] == n;
      SplitConnectsAccepted(n.box, roots, check, k);
    } else {
      var s :| s in cp && s.Internal? && n in s.children;
      InheritKeeps(n.box, cp, check, s, n);
    }
    assert n in it.conn;
    if n.Internal? {
      DownForestSelfConnected(n.children, n, it.conn, it.g, roots, check, t);
    }
  }

  lemma {:induction false} DownForestSelfConnected(bs: seq<Bucket>, parent: Bucket, cp: seq<Bucket>,
                                                   gp: multiset<nat>, roots: seq<Bucket>,
                                                   check: (Box, Box) -> bool, t: seq<multiset<nat>>)
    requires forall b :: check(b, b)
    requires parent in cp && parent.Internal? && forall k :: 0 <= k < |bs| ==> bs[k] in parent.children
    ensures var r := DownForest(bs, cp, gp, roots, check, t);
            forall k :: 0 <= k < |bs| ==> SelfConnected(bs[k], r.locals[k])
    decreases bs
  {
    if |bs| > 0 {
      var m := |bs| - 1;
      var f := DownForest(bs[..m], cp, gp, roots, check, t);
      DownForestSelfConnected(bs[..m], parent, cp, gp, roots, check, t);
      DownSelfConnected(bs[m], cp, gp, roots, check, f.target);
    }
  }

  // ---------------------------------------------------------------------
  // gemv, calculate_expansions, evaluate_expansion
  // ---------------------------------------------------------------------

  /** `m_W` (inside the buckets), and `m_g` with `m_connectivity` (in the
      locals), for the root's children in child order. */
  datatype Expansions = Expansions(roots: seq<Bucket>, locals: seq<Local>)

  datatype GemvResult = GemvResult(target: seq<multiset<nat>>, expansions: Expansions)

  datatype FmmError = LengthMismatch

  /** Both sweeps over the root's children; the downward sweep of each
      child starts from an empty inherited list and a zero `g`. */
  function Sweeps(roots: seq<Bucket>, check: (Box, Box) -> bool, t: seq<multiset<nat>>): (r: GemvResult)
  {
    var up := UpAll(roots);
    var f := DownForest(up, [], multiset{}, up, check, t);
    GemvResult(f.target, Expansions(up, f.locals))
  }

  /** `gemv`: `target += A * source`. Vectors of different lengths fail the
      source's `CHECK`. */
  function Gemv<S>(roots: seq<Bucket>, target: seq<multiset<nat>>, source: seq<S>,
                   check: (Box, Box) -> bool): (r: Result<GemvResult, FmmError>)
    ensures r.Failure? <==> |target| != |source|
  {
    if |target| != |source| then Failure(LengthMismatch)
    else Success(Sweeps(roots, check, target))
  }

  /** `calculate_expansions`: the same two sweeps with an empty target. */
  function CalculateExpansions(roots: seq<Bucket>, check: (Box, Box) -> bool): (r: Expansions)
  {
    Sweeps(roots, check, []).expansions
  }

  /** Exactly once: when the leaves hold each of the particles 0..N-1 once,
      `gemv` adds to the target entry of every particle every source
      particle exactly once, whatever the well-separation test says. */
  lemma {:induction false} GemvExactlyOnce<S>(roots: seq<Bucket>, target: seq<multiset<nat>>,
                                              source: seq<S>, check: (Box, Box) -> bool)
    requires ParticlesOf(roots) == Span(0, |source|)
    requires |target| == |source|
    ensures Gemv(roots, target, source, check).Success?
    ensures var r := Gemv(roots, target, source, check).value;
            forall i :: 0 <= i < |target| ==> r.target[i] == target[i] + Span(0, |source|)
  {
    var up := UpAll(roots);
    UpAllParticles(roots);
    DownForestTarget(up, [], multiset{}, up, check, target);
    var r := Gemv(roots, target, source, check).value;
    forall i | 0 <= i < |target|
      ensures r.target[i] == target[i] + Span(0, |source|)
    {
      assert Times(1, Span(0, |source|)) == Span(0, |source|);
    }
  }

  /** `calculate_expansions` stores the same expansions and connectivity as
      `gemv` does. */
  lemma {:induction false} CalculateExpansionsAsGemv<S>(roots: seq<Bucket>, target: seq<multiset<nat>>,
                                                        source: seq<S>, check: (Box, Box) -> bool)
    requires |target| == |source|
    ensures Gemv(roots, target, source, check).Success?
    ensures CalculateExpansions(roots, check) == Gemv(roots, target, source, check).value.expansions
  {
    var up := UpAll(roots);
    DownForestLocalIndependent(up, [], multiset{}, up, check, [], target);
  }

  /** With a test that accepts every box against itself, every bucket
      stored by the sweeps is on its own connected list. */
  lemma {:induction false} SweepsSelfConnected(roots: seq<Bucket>, check: (Box, Box) -> bool,
                                               t: seq<multiset<nat>>)
    requires forall b :: check(b, b)
    ensures var r := Sweeps(roots, check, t);
            |r.expansions.locals| == |roots|
            && forall k :: 0 <= k < |roots| ==> SelfConnected(r.expansions.roots[k], r.expansions.locals[k])
  {
    var up := UpAll(roots);
    DownForestRootsSelfConnected(up, up, check, t);
  }

  lemma {:induction false} DownForestRootsSelfConnected(bs: seq<Bucket>, roots: seq<Bucket>,
                                                        check: (Box, Box) -> bool, t: seq<multiset<nat>>)
    requires forall b :: check(b, b)
    requires forall k :: 0 <= k < |bs| ==> bs[k] in roots
    ensures var r := DownForest(bs, [], multiset{}, roots, check, t);
            forall k :: 0 <= k < |bs| ==> SelfConnected(bs[k], r.locals[k])
    decreases bs
  {
    if |bs| > 0 {
      var m := |bs| - 1;
      var f := DownForest(bs[..m], [], multiset{}, roots, check, t);
      DownForestRootsSelfConnected(bs[..m], roots, check, t);
      DownSelfConnected(bs[m], [], multiset{}, roots, check, f.target);
    }
  }

  // ---------------------------------------------------------------------
  // evaluate_expansion
  // ---------------------------------------------------------------------

  /** `path` leads, by child positions, from the root's children to a
      bucket. */
  predicate IsPath(bs: seq<Bucket>, path: seq<nat>)
    decreases |path|
  {
    && |path| > 0 && path[0] < |bs|
    && (|path| > 1 ==> bs[path[0]].Internal? && IsPath(bs[path[0]].children, path[1..]))
  }

  function BucketAt(bs: seq<Bucket>, path: seq<nat>): (r: Bucket)
    requires IsPath(bs, path)
    decreases |path|
  {
    if |path| == 1 then bs[path[0]] else BucketAt(bs[path[0]].children, path[1..])
  }

  /** The stored locals have the shape of the tree. */
  predicate Shaped(b: Bucket, l: Local)
    decreases b
  {
    match b
    case Leaf(_, _, _, _) => true
    case Internal(_, cs, _) =>
      |l.children| == |cs| && forall i :: 0 <= i < |cs| ==> Shaped(cs[i], l.children[i])
  }

  predicate ShapedForest(bs: seq<Bucket>, ls: seq<Local>)
  {
    |ls| == |bs| && forall i :: 0 <= i < |bs| ==> Shaped(bs[i], ls[i])
  }

  function LocalAt(bs: seq<Bucket>, ls: seq<Local>, path: seq<nat>): (r: Local)
    requires IsPath(bs, path) && ShapedForest(bs, ls)
    decreases |path|
  {
    if |path| == 1 then ls[path[0]]
    else LocalAt(bs[path[0]].children, ls[path[0]].children, path[1..])
  }

  /** `get_subtree(ci)`: the buckets of the subtree of `b`, depth first,
      each bucket before its children. */
  function Subtree(b: Bucket): (r: seq<Bucket>)
    ensures |r| > 0 && r[0] == b
    decreases b
  {
    match b
    case Leaf(_, _, _, _) => [b]
    case Internal(_, cs, _) => [b] + SubtreeOf(cs)
  }

  function SubtreeOf(bs: seq<Bucket>): (r: seq<Bucket>)
    decreases bs
  {
    if |bs| == 0 then [] else SubtreeOf(bs[..|bs| - 1]) + Subtree(bs[|bs| - 1])
  }

  /** P2P at a point from a sequence of buckets: each leaf contributes its
      particles (`calculate_P2P_position` over `get_bucket_particles`), an
      internal bucket nothing. */
  function P2PLeaves(ls: seq<Bucket>): (r: multiset<nat>)
  {
    if |ls| == 0 then multiset{}
    else
      var l := ls[|ls| - 1];
      P2PLeaves(ls[..|ls| - 1]) + (if l.Leaf? then Span(l.lo, l.hi) else multiset{})
  }

  lemma {:induction false} P2PLeavesAppend(a: seq<Bucket>, b: seq<Bucket>)
    ensures P2PLeaves(a + b) == P2PLeaves(a) + P2PLeaves(b)
    decreases |b|
  {
    if |b| == 0 {
      assert a + b == a;
    } else {
      var m := |b| - 1;
      assert (a + b)[..|a + b| - 1] == a + b[..m];
      assert (a + b)[|a + b| - 1] == b[m];
      P2PLeavesAppend(a, b[..m]);
    }
  }

  /** Walking a subtree and adding the particles of each leaf met yields
      exactly the particles under its root. */
  lemma {:induction false} SubtreeLeaves(b: Bucket)
    ensures P2PLeaves(Subtree(b)) == Particles(b)
    decreases b
  {
    match b
    case Leaf(_, _, _, _) =>
      assert Subtree(b)[..0] == [];
    case Internal(_, cs, _) =>
      SubtreeOfLeaves(cs);
      P2PLeavesAppend([b], SubtreeOf(cs));
      assert [b][..0] == [];
  }

  lemma {:induction false} SubtreeOfLeaves(bs: seq<Bucket>)
    ensures P2PLeaves(SubtreeOf(bs)) == ParticlesOf(bs)
    decreases bs
  {
    if |bs| > 0 {
      var m := |bs| - 1;
      SubtreeOfLeaves(bs[..m]);
      SubtreeLeaves(bs[m]);
      P2PLeavesAppend(SubtreeOf(bs[..m]), Subtree(bs[m]));
    }
  }

  /** P2P at a point from the connected list: a connected leaf's
      particles, or, for a connected internal bucket, those of each leaf
      met on the walk of its subtree. */
  function EvalConnected(conn: seq<Bucket>): (r: multiset<nat>)
  {
    if |conn| == 0 then multiset{}
    else
      var cj := conn[|conn| - 1];
      EvalConnected(conn[..|conn| - 1]) + (if cj.Leaf? then Span(cj.lo, cj.hi) else P2PLeaves(Subtree(cj)))
  }

  /** P2P over the connected list delivers exactly the connected buckets'
      particles, each as often as it lies under them. */
  lemma {:induction false} EvalConnectedParticles(conn: seq<Bucket>)
    ensures EvalConnected(conn) == ParticlesOf(conn)
  {
    if |conn| > 0 {
      var m := |conn| - 1;
      EvalConnectedParticles(conn[..m]);
      SubtreeLeaves(conn[m]);
    }
  }

  /** `evaluate_expansion` at a point whose bucket `get_bucket` finds at
      `path`: L2P of the bucket's stored `g`, plus P2P from its stored
      connected buckets. */
  function EvaluateExpansion(e: Expansions, path: seq<nat>): (r: multiset<nat>)
    requires IsPath(e.roots, path) && ShapedForest(e.roots, e.locals)
  {
    var l := LocalAt(e.roots, e.locals, path);
    l.g + EvalConnected(l.conn)
  }

  lemma {:induction false} CoveredShaped(b: Bucket, l: Local, all: multiset<nat>)
    requires Covered(b, l, all)
    ensures Shaped(b, l)
    decreases b
  {
    if b.Internal? {
      forall i | 0 <= i < |b.children|
        ensures Shaped(b.children[i], l.children[i])
      {
        CoveredShaped(b.children[i], l.children[i], all);
      }
    }
  }

  lemma {:induction false} CoveredAt(bs: seq<Bucket>, ls: seq<Local>, path: seq<nat>, all: multiset<nat>)
    requires IsPath(bs, path) && |ls| == |bs|
    requires forall k :: 0 <= k < |bs| ==> Covered(bs[k], ls[k], all)
    ensures ShapedForest(bs, ls)
    ensures LocalAt(bs, ls, path).g + ParticlesOf(LocalAt(bs, ls, path).conn) == all
    decreases |path|
  {
    forall k | 0 <= k < |bs|
      ensures Shaped(bs[k], ls[k])
    {
      CoveredShaped(bs[k], ls[k], all);
    }
    if |path| > 1 {
      CoveredAt(bs[path[0]].children, ls[path[0]].children, path[1..], all);
    }
  }

  /** After `gemv` (or `calculate_expansions`), evaluating the expansion in
      any bucket yields every particle exactly once: the same particles
      `gemv` delivered to each particle of that bucket. */
  lemma {:induction false} EvaluateMatchesGemv<S>(roots: seq<Bucket>, target: seq<multiset<nat>>,
                                                  source: seq<S>, check: (Box, Box) -> bool, path: seq<nat>)
    requires ParticlesOf(roots) == Span(0, |source|)
    requires |target| == |source|
    requires IsPath(UpAll(roots), path)
    ensures Gemv(roots, target, source, check).Success?
    ensures var r := Gemv(roots, target, source, check).value;
            && ShapedForest(r.expansions.roots, r.expansions.locals)
            && EvaluateExpansion(r.expansions, path) == Span(0, |source|)
            && forall i :: 0 <= i < |target| ==> r.target[i] == target[i] + EvaluateExpansion(r.expansions, path)
  {
    GemvExactlyOnce(roots, target, source, check);
    var up := UpAll(roots);
    UpAllParticles(roots);
    DownForestCovered(up, [], multiset{}, up, check, target);
    var f := DownForest(up, [], multiset{}, up, check, target);
    CoveredAt(up, f.locals, path, ParticlesOf(up));
    EvalConnectedParticles(LocalAt(up, f.locals, path).conn);
  }
}
