/**
 * How the writes that shrink the trie change the view: contraction of a
 * C-node to a tomb, resurrection of tombs into leaves (clean and
 * cleanParent), removal of a leaf from a C-node, and removal from a
 * collision list.
 */
module Shrink {
  import opened Bits
  import Lists
  import opened Wrappers
  import opened Node
  import opened View
  import opened Steps
  import opened Util

  /** Equal lookups and removal results for every key under the label give an unchanged view. */
  lemma SameFromKeys<V>(H0: Heap<V>, H1: Heap<V>, L0: Labels<V>, L1: Labels<V>, hf: Key -> bv64,
                        i: INode<V>, lev: nat)
    requires HeapOK(H0, L0, hf) && HeapOK(H1, L1, hf) && LabelsKept(L0, L1)
    requires i in H0 && lev == 6 * |L0[i]|
    requires forall k :: OnPath(hf(k), L0[i]) ==>
      Find(H1, i, lev, k, hf(k)) == Find(H0, i, lev, k, hf(k)) &&
      Shadow(H1, i, lev, k, hf(k)) == Shadow(H0, i, lev, k, hf(k))
    ensures Same(H0, H1, i, lev, hf)
  {
    forall k | !OnPath(hf(k), L0[i])
      ensures Find(H1, i, lev, k, hf(k)) == Find(H0, i, lev, k, hf(k)) &&
              Shadow(H1, i, lev, k, hf(k)) == Shadow(H0, i, lev, k, hf(k))
    {
      OffPath(H0, L0, hf, i, lev, k);
      OffPath(H1, L1, hf, i, lev, k);
      ShadowOfNone(Last(PathOf(H0, i, lev, hf(k))), k);
      ShadowOfNone(Last(PathOf(H1, i, lev, hf(k))), k);
    }
  }

  /** Replacing the main node of `p` leaves every node deeper than `p` as it was. */
  lemma AgreeBelow<V>(H0: Heap<V>, L0: Labels<V>, p: INode<V>, m: Main<V>, h: bv64)
    requires p in L0
    ensures Agree(H0, H0[p := m], L0, h, |L0[p]| + 1)
  {
  }

  /** Replacing a node's main node by a well-placed one keeps the heap well formed. */
  lemma ReplaceOK<V>(H0: Heap<V>, L0: Labels<V>, hf: Key -> bv64, p: INode<V>, m: Main<V>)
    requires HeapOK(H0, L0, hf) && p in H0 && MainOK(L0, hf, m, L0[p])
    ensures HeapOK(H0[p := m], L0, hf) && Unchanged(H0, H0[p := m], L0, L0[p])
  {
    assert LabelsKept(L0, L0);
    HeapStep(H0, L0, H0[p := m], L0, hf);
  }

  // -----------------------------------------------------------------------
  // Contraction
  // -----------------------------------------------------------------------

  /** The only leaf of a one-branch C-node lies under the node's one bit. */
  lemma SoleLeaf<V>(H0: Heap<V>, L0: Labels<V>, hf: Key -> bv64, i: INode<V>, e: Entry<V>) returns (c: bv6)
    requires HeapOK(H0, L0, hf) && i in H0 && H0[i].CNode? && |H0[i].arr| == 1 && H0[i].arr[0] == Leaf(e)
    ensures Has(H0[i].bmp, c) && EntryOK(hf, e, L0[i] + [c])
  {
    CNodeDepth(H0, L0, hf, i);
    c := SomeBit(H0[i].bmp, 64);
    BranchAt(H0, L0, hf, i, c);
  }

  /** A contracted C-node is well placed: its leaf lies under the label and it is not the root. */
  lemma ContractOK<V>(H0: Heap<V>, L0: Labels<V>, hf: Key -> bv64, i: INode<V>, lev: nat)
    requires HeapOK(H0, L0, hf) && i in H0 && H0[i].CNode? && lev == 6 * |L0[i]|
    ensures MainOK(L0, hf, ToContracted(H0[i], lev), L0[i])
  {
    assert NodeOK(H0, L0, hf, i);
    var n := H0[i];
    if lev > 0 && |n.arr| == 1 && n.arr[0].Leaf? {
      var c := SoleLeaf(H0, L0, hf, i, n.arr[0].e);
      OnPathPrefix(n.arr[0].e.hash, L0[i] + [c], |L0[i]|);
      assert (L0[i] + [c])[..|L0[i]|] == L0[i];
    }
  }

  /** A key whose chunk is present in a contracted C-node reaches its leaf before and its tomb after. */
  lemma ContractHit<V>(H0: Heap<V>, L0: Labels<V>, hf: Key -> bv64, i: INode<V>, lev: nat, e: Entry<V>, k: Key)
    requires HeapOK(H0, L0, hf) && i in H0 && H0[i].CNode? && lev == 6 * |L0[i]|
    requires |H0[i].arr| == 1 && H0[i].arr[0] == Leaf(e) && Has(H0[i].bmp, Chunk(hf(k), lev))
    ensures Last(PathOf(H0, i, lev, hf(k))) == CStep(1, LeafSlot(e))
  {
    CNodeDepth(H0, L0, hf, i);
    BranchAt(H0, L0, hf, i, Chunk(hf(k), lev));
    PathLeaf(H0, i, lev, hf(k), e);
  }

  /** A key whose chunk is absent from a contracted C-node is not the key of its leaf. */
  lemma ContractMiss<V>(H0: Heap<V>, L0: Labels<V>, hf: Key -> bv64, i: INode<V>, lev: nat, e: Entry<V>, k: Key)
    requires HeapOK(H0, L0, hf) && i in H0 && H0[i].CNode? && lev == 6 * |L0[i]|
    requires |H0[i].arr| == 1 && H0[i].arr[0] == Leaf(e) && !Has(H0[i].bmp, Chunk(hf(k), lev))
    ensures Last(PathOf(H0, i, lev, hf(k))) == CStep(1, NoBit) && e.key != k
  {
    CNodeDepth(H0, L0, hf, i);
    PathNoBit(H0, i, lev, hf(k));
    var c := SoleLeaf(H0, L0, hf, i, e);
    assert (L0[i] + [c])[|L0[i]|] == c;
  }

  /** Contracting the C-node of `i` keeps what every key under its label finds, and its removal result. */
  lemma ContractKey<V>(H0: Heap<V>, L0: Labels<V>, hf: Key -> bv64, i: INode<V>, lev: nat, k: Key)
    requires HeapOK(H0, L0, hf) && i in H0 && H0[i].CNode? && lev == 6 * |L0[i]|
    ensures Find(H0[i := ToContracted(H0[i], lev)], i, lev, k, hf(k)) == Find(H0, i, lev, k, hf(k))
    ensures Shadow(H0[i := ToContracted(H0[i], lev)], i, lev, k, hf(k)) == Shadow(H0, i, lev, k, hf(k))
  {
    var n := H0[i];
    var t := ToContracted(n, lev);
    if t == n {
      assert H0[i := t] == H0;
    } else {
      var e := n.arr[0].e;
      assert PathOf(H0[i := t], i, lev, hf(k)) == [TStep(e)];
      if Has(n.bmp, Chunk(hf(k), lev)) {
        ContractHit(H0, L0, hf, i, lev, e, k);
      } else {
        ContractMiss(H0, L0, hf, i, lev, e, k);
      }
    }
  }

  /**
   * toContracted as a write: the heap stays well formed and the view below
   * the node is unchanged.
   */
  lemma ContractStep<V>(H0: Heap<V>, L0: Labels<V>, hf: Key -> bv64, i: INode<V>, lev: nat)
    requires HeapOK(H0, L0, hf) && i in H0 && H0[i].CNode? && lev == 6 * |L0[i]|
    ensures HeapOK(H0[i := ToContracted(H0[i], lev)], L0, hf)
    ensures Unchanged(H0, H0[i := ToContracted(H0[i], lev)], L0, L0[i])
    ensures Same(H0, H0[i := ToContracted(H0[i], lev)], i, lev, hf)
  {
    var H1 := H0[i := ToContracted(H0[i], lev)];
    ContractOK(H0, L0, hf, i, lev);
    ReplaceOK(H0, L0, hf, i, ToContracted(H0[i], lev));
    forall k | OnPath(hf(k), L0[i])
      ensures Find(H1, i, lev, k, hf(k)) == Find(H0, i, lev, k, hf(k)) &&
              Shadow(H1, i, lev, k, hf(k)) == Shadow(H0, i, lev, k, hf(k))
    {
      ContractKey(H0, L0, hf, i, lev, k);
    }
    assert LabelsKept(L0, L0);
    SameFromKeys(H0, H1, L0, L0, hf, i, lev);
  }

  /** A node that contraction turned into a tomb is a path of one tomb, and it had one branch. */
  lemma ContractTomb<V>(H0: Heap<V>, i: INode<V>, lev: nat, h: bv64)
    requires i in H0 && H0[i].CNode? && ToContracted(H0[i], lev) != H0[i]
    ensures |H0[i].arr| == 1
    ensures Tomb(H0[i := ToContracted(H0[i], lev)], i, lev, h) == 1
    ensures Collapses(H0[i := ToContracted(H0[i], lev)], i, lev, h)
  {
    assert PathOf(H0[i := ToContracted(H0[i], lev)], i, lev, h) == [TStep(H0[i].arr[0].e)];
  }

  /** Contraction only distinguishes the root level from the others. */
  lemma ContractLevel<V>(cn: Main<V>, a: nat, b: nat)
    requires cn.CNode? && ((a == 0) == (b == 0) || |cn.arr| != 1)
    ensures ToContracted(cn, a) == ToContracted(cn, b)
  {
  }

  // -----------------------------------------------------------------------
  // Resurrection
  // -----------------------------------------------------------------------

  /** Branch `b'` is `b`, or `b` is an I-node holding a tomb and `b'` the tomb's leaf. */
  ghost predicate Revived<V>(H0: Heap<V>, b': Branch<V>, b: Branch<V>)
  {
    b' == b || (b.Ind? && b.i in H0 && H0[b.i].TNode? && b' == Leaf(H0[b.i].e))
  }

  /** C-node `m` is C-node `n` with some tombs below it resurrected into leaves. */
  ghost predicate ResurrectedFrom<V>(H0: Heap<V>, m: Main<V>, n: Main<V>)
  {
    n.CNode? && m.CNode? && m.bmp == n.bmp && |m.arr| == |n.arr| &&
    forall j :: 0 <= j < |n.arr| ==> Revived(H0, m.arr[j], n.arr[j])
  }

  /** compressed resurrects every tomb below the C-node. */
  lemma CompressedRevives<V>(H0: Heap<V>, n: Main<V>)
    requires n.CNode?
    ensures ResurrectedFrom(H0, Compressed(H0, n), n)
  {
  }

  /** A resurrected leaf is well placed where its I-node was. */
  lemma RevivedSlotOK<V>(H0: Heap<V>, L0: Labels<V>, hf: Key -> bv64, p: INode<V>, m: Main<V>, d: bv6)
    requires HeapOK(H0, L0, hf) && p in H0 && ResurrectedFrom(H0, m, H0[p]) && Has(m.bmp, d)
    ensures CountFrom(m.bmp, d as nat) < |m.arr| && BranchOK(L0, hf, m.arr[CountFrom(m.bmp, d as nat)], L0[p] + [d])
  {
    BranchAt(H0, L0, hf, p, d);
    var b := H0[p].arr[CountFrom(m.bmp, d as nat)];
    if b.Ind? && m.arr[CountFrom(m.bmp, d as nat)] != b {
      assert NodeOK(H0, L0, hf, b.i);
    }
  }

  /** Resurrecting tombs below a C-node keeps it well placed. */
  lemma ResurrectOK<V>(H0: Heap<V>, L0: Labels<V>, hf: Key -> bv64, p: INode<V>, m: Main<V>)
    requires HeapOK(H0, L0, hf) && p in H0 && ResurrectedFrom(H0, m, H0[p])
    ensures MainOK(L0, hf, m, L0[p])
  {
    CNodeDepth(H0, L0, hf, p);
    forall d: bv6 | Has(m.bmp, d)
      ensures CountFrom(m.bmp, d as nat) < |m.arr| && BranchOK(L0, hf, m.arr[CountFrom(m.bmp, d as nat)], L0[p] + [d])
    {
      RevivedSlotOK(H0, L0, hf, p, m, d);
    }
  }

  /** Through a resurrected slot, the key meets the tomb's entry as a leaf instead of as a tomb. */
  lemma RevivedPath<V>(H0: Heap<V>, L0: Labels<V>, hf: Key -> bv64, p: INode<V>, lev: nat, m: Main<V>, h: bv64, j: INode<V>)
    requires HeapOK(H0, L0, hf) && p in H0 && lev == 6 * |L0[p]| && ResurrectedFrom(H0, m, H0[p])
    requires ChildAt(H0, p, Chunk(h, lev), j) && j in H0 && H0[j].TNode?
    requires m.arr[CountFrom(m.bmp, Chunk(h, lev) as nat)] == Leaf(H0[j].e)
    ensures Last(PathOf(H0, p, lev, h)) == TStep(H0[j].e)
    ensures PathOf(H0, p, lev, h) == [CStep(|H0[p].arr|, Down), TStep(H0[j].e)]
    ensures PathOf(H0[p := m], p, lev, h) == [CStep(|m.arr|, LeafSlot(H0[j].e))]
  {
    CNodeDepth(H0, L0, hf, p);
    PathDown(H0, p, j, lev, h);
    assert PathOf(H0, j, lev + W, h) == [TStep(H0[j].e)];
    PathLeaf(H0[p := m], p, lev, h, H0[j].e);
  }

  /** Resurrecting tombs below `p` keeps what a key under its label finds, and its removal result. */
  lemma ResurrectKey<V>(H0: Heap<V>, L0: Labels<V>, hf: Key -> bv64, p: INode<V>, lev: nat, m: Main<V>, k: Key)
    requires HeapOK(H0, L0, hf) && p in H0 && lev == 6 * |L0[p]| && ResurrectedFrom(H0, m, H0[p])
    requires OnPath(hf(k), L0[p])
    ensures Find(H0[p := m], p, lev, k, hf(k)) == Find(H0, p, lev, k, hf(k))
    ensures Shadow(H0[p := m], p, lev, k, hf(k)) == Shadow(H0, p, lev, k, hf(k))
  {
    ResurrectEnd(H0, L0, hf, p, lev, m, hf(k), k);
  }

  /** Where a path from a C-node with resurrected tombs ends, key `k` finds what it found, and so after one removal. */
  lemma ResurrectEnd<V>(H0: Heap<V>, L0: Labels<V>, hf: Key -> bv64, p: INode<V>, lev: nat, m: Main<V>, h: bv64, k: Key)
    requires HeapOK(H0, L0, hf) && p in H0 && lev == 6 * |L0[p]| && ResurrectedFrom(H0, m, H0[p])
    requires OnPath(h, L0[p])
    ensures FindStep(Last(PathOf(H0[p := m], p, lev, h)), k) == FindStep(Last(PathOf(H0, p, lev, h)), k)
    ensures ShadowStep(Last(PathOf(H0[p := m], p, lev, h)), k) == ShadowStep(Last(PathOf(H0, p, lev, h)), k)
  {
    var n := H0[p];
    var d := Chunk(h, lev);
    CNodeDepth(H0, L0, hf, p);
    if !Has(n.bmp, d) {
      ResurrectNoBit(H0, p, lev, m, h);
    } else {
      ResurrectHas(H0, L0, hf, p, lev, m, h, k);
    }
  }

  /** Where the hash's chunk is present, the slot is either kept or holds the tomb's leaf. */
  lemma ResurrectHas<V>(H0: Heap<V>, L0: Labels<V>, hf: Key -> bv64, p: INode<V>, lev: nat, m: Main<V>, h: bv64, k: Key)
    requires HeapOK(H0, L0, hf) && p in H0 && lev == 6 * |L0[p]| && ResurrectedFrom(H0, m, H0[p])
    requires OnPath(h, L0[p]) && Has(H0[p].bmp, Chunk(h, lev))
    ensures FindStep(Last(PathOf(H0[p := m], p, lev, h)), k) == FindStep(Last(PathOf(H0, p, lev, h)), k)
    ensures ShadowStep(Last(PathOf(H0[p := m], p, lev, h)), k) == ShadowStep(Last(PathOf(H0, p, lev, h)), k)
  {
    var n := H0[p];
    BranchAt(H0, L0, hf, p, Chunk(h, lev));
    var q := CountFrom(n.bmp, Chunk(h, lev) as nat);
    if m.arr[q] == n.arr[q] {
      ResurrectKept(H0, L0, hf, p, lev, m, h);
      OutcomeFind(Last(PathOf(H0[p := m], p, lev, h)), Last(PathOf(H0, p, lev, h)), k);
    } else {
      ResurrectRevived(H0, L0, hf, p, lev, m, h, k);
    }
  }

  /** Where the hash's chunk is absent, the path stops at the C-node before and after. */
  lemma ResurrectNoBit<V>(H0: Heap<V>, p: INode<V>, lev: nat, m: Main<V>, h: bv64)
    requires p in H0 && lev < Exp2 && ResurrectedFrom(H0, m, H0[p]) && !Has(H0[p].bmp, Chunk(h, lev))
    ensures Last(PathOf(H0[p := m], p, lev, h)) == Last(PathOf(H0, p, lev, h))
  {
    PathNoBit(H0, p, lev, h);
    PathNoBit(H0[p := m], p, lev, h);
  }

  /** Through a slot whose tomb was resurrected, the key meets the same entry. */
  lemma ResurrectRevived<V>(H0: Heap<V>, L0: Labels<V>, hf: Key -> bv64, p: INode<V>, lev: nat, m: Main<V>, h: bv64, k: Key)
    requires HeapOK(H0, L0, hf) && p in H0 && lev == 6 * |L0[p]| && ResurrectedFrom(H0, m, H0[p])
    requires OnPath(h, L0[p]) && Has(H0[p].bmp, Chunk(h, lev)) && CountFrom(H0[p].bmp, Chunk(h, lev) as nat) < |H0[p].arr|
    requires m.arr[CountFrom(H0[p].bmp, Chunk(h, lev) as nat)] != H0[p].arr[CountFrom(H0[p].bmp, Chunk(h, lev) as nat)]
    ensures FindStep(Last(PathOf(H0[p := m], p, lev, h)), k) == FindStep(Last(PathOf(H0, p, lev, h)), k)
    ensures ShadowStep(Last(PathOf(H0[p := m], p, lev, h)), k) == ShadowStep(Last(PathOf(H0, p, lev, h)), k)
  {
    var q := CountFrom(H0[p].bmp, Chunk(h, lev) as nat);
    assert Revived(H0, m.arr[q], H0[p].arr[q]);
    RevivedPath(H0, L0, hf, p, lev, m, h, H0[p].arr[q].i);
  }

  /** Through a slot resurrection left alone, the path ends as before. */
  lemma ResurrectKept<V>(H0: Heap<V>, L0: Labels<V>, hf: Key -> bv64, p: INode<V>, lev: nat, m: Main<V>, h: bv64)
    requires HeapOK(H0, L0, hf) && p in H0 && lev == 6 * |L0[p]| && ResurrectedFrom(H0, m, H0[p])
    requires OnPath(h, L0[p]) && Has(H0[p].bmp, Chunk(h, lev)) && CountFrom(H0[p].bmp, Chunk(h, lev) as nat) < |H0[p].arr|
    requires m.arr[CountFrom(H0[p].bmp, Chunk(h, lev) as nat)] == H0[p].arr[CountFrom(H0[p].bmp, Chunk(h, lev) as nat)]
    ensures Outcome(Last(PathOf(H0[p := m], p, lev, h))) == Outcome(Last(PathOf(H0, p, lev, h)))
  {
    AgreeBelow(H0, L0, p, m, h);
    SlotKept(H0, H0[p := m], L0, hf, p, lev, h, m);
  }

  /** Resurrection as a write: the heap stays well formed and the view below `p` is unchanged. */
  lemma ResurrectStep<V>(H0: Heap<V>, L0: Labels<V>, hf: Key -> bv64, p: INode<V>, lev: nat, m: Main<V>)
    requires HeapOK(H0, L0, hf) && p in H0 && lev == 6 * |L0[p]| && ResurrectedFrom(H0, m, H0[p])
    ensures HeapOK(H0[p := m], L0, hf) && Unchanged(H0, H0[p := m], L0, L0[p])
    ensures Same(H0, H0[p := m], p, lev, hf)
  {
    ResurrectOK(H0, L0, hf, p, m);
    ReplaceOK(H0, L0, hf, p, m);
    forall k | OnPath(hf(k), L0[p])
      ensures Find(H0[p := m], p, lev, k, hf(k)) == Find(H0, p, lev, k, hf(k)) &&
              Shadow(H0[p := m], p, lev, k, hf(k)) == Shadow(H0, p, lev, k, hf(k))
    {
      ResurrectKey(H0, L0, hf, p, lev, m, k);
    }
    assert LabelsKept(L0, L0);
    SameFromKeys(H0, H0[p := m], L0, L0, hf, p, lev);
  }

  // -----------------------------------------------------------------------
  // clean and cleanParent
  // -----------------------------------------------------------------------

  /**
   * clean at the parent `p` of a tomb met on the path of `h`: the view below
   * `p` is unchanged, the tomb on that path is gone or one level higher,
   * and a path that collapses afterwards collapsed before. Contraction at
   * level `lev'` behaves as at p's own level unless only the root level is
   * mistaken for a deeper one on a collapsing path.
   */
  lemma CleanStep<V>(H0: Heap<V>, L0: Labels<V>, hf: Key -> bv64, p: INode<V>, lev: nat, lev': nat, h: bv64, j: INode<V>)
    requires HeapOK(H0, L0, hf) && p in H0 && lev == 6 * |L0[p]| && OnPath(h, L0[p])
    requires ChildAt(H0, p, Chunk(h, lev), j) && j in H0 && H0[j].TNode?
    requires (lev' == 0) == (lev == 0) || !Collapses(H0, p, lev, h)
    ensures var H2 := H0[p := ToContracted(Compressed(H0, H0[p]), lev')];
      HeapOK(H2, L0, hf) && Unchanged(H0, H2, L0, L0[p]) && Same(H0, H2, p, lev, hf) &&
      Tomb(H2, p, lev, h) < Tomb(H0, p, lev, h) &&
      (Collapses(H2, p, lev, h) ==> Collapses(H0, p, lev, h))
  {
    var m := Compressed(H0, H0[p]);
    var H1 := H0[p := m];
    CompressedRevives(H0, H0[p]);
    ResurrectStep(H0, L0, hf, p, lev, m);
    RevivedPath(H0, L0, hf, p, lev, m, h, j);
    ContractLevel(m, lev', lev);
    ContractStep(H1, L0, hf, p, lev);
    assert H1[p := ToContracted(m, lev)] == H0[p := ToContracted(m, lev)];
    if ToContracted(m, lev) != m {
      ContractTomb(H1, p, lev, h);
    } else {
      assert H0[p := ToContracted(m, lev)] == H1;
    }
  }

  /**
   * cleanParent after `i` (child of `p` on the path of `h`) became a tomb:
   * the tomb's leaf replaces `i` in p's C-node, which is then contracted;
   * the view below `p` is unchanged.
   */
  lemma CleanParentStep<V>(H0: Heap<V>, L0: Labels<V>, hf: Key -> bv64, p: INode<V>, lev: nat, m: Main<V>)
    requires HeapOK(H0, L0, hf) && p in H0 && lev == 6 * |L0[p]| && ResurrectedFrom(H0, m, H0[p])
    ensures var H2 := H0[p := ToContracted(m, lev)];
      HeapOK(H2, L0, hf) && Unchanged(H0, H2, L0, L0[p]) && Same(H0, H2, p, lev, hf)
  {
    var H1 := H0[p := m];
    ResurrectStep(H0, L0, hf, p, lev, m);
    ContractStep(H1, L0, hf, p, lev);
    assert H1[p := ToContracted(m, lev)] == H0[p := ToContracted(m, lev)];
  }

  /** The updated C-node cleanParent builds resurrects the one tomb. */
  lemma UpdatedRevives<V>(H0: Heap<V>, n: Main<V>, pos: nat, i: INode<V>, gen: Generation?)
    requires n.CNode? && pos < |n.arr| && n.arr[pos] == Ind(i) && i in H0 && H0[i].TNode?
    ensures ResurrectedFrom(H0, Updated(n, pos, Resurrect(i, H0[i]), gen), n)
  {
  }

  // -----------------------------------------------------------------------
  // Removing a leaf from a C-node
  // -----------------------------------------------------------------------

  /**
   * The C-node `removed` builds is the one the leaf was spliced into. The
   * bitmaps `x`, `y` and the position `pos` are passed as names for the
   * bitmaps and count they equal.
   */
  lemma RemovedIsSplice<V>(n: Main<V>, r: Main<V>, c: bv6, x: bv64, y: bv64, pos: nat)
    requires n.CNode? && r.CNode? && x == n.bmp && y == r.bmp && Has(x, c) && y == x ^ Flag(c)
    requires pos == CountFrom(x, c as nat) && pos < |n.arr| && |r.arr| == |n.arr| - 1
    requires forall j :: 0 <= j < pos ==> r.arr[j] == n.arr[j]
    requires forall j :: pos <= j < |r.arr| ==> r.arr[j] == n.arr[j + 1]
    ensures SplicedIn(n, r, c, n.arr[pos])
  {
    Unset(x, y, c);
    ShiftedBack(n, r, pos);
  }

  /** Clearing a set bit: the bit is clear after, setting it again restores the bitmap, and its position is kept. */
  lemma Unset(x: bv64, y: bv64, c: bv6)
    requires Has(x, c) && y == x ^ Flag(c)
    ensures !Has(y, c) && x == y | Flag(c) && CountFrom(y, c as nat) == CountFrom(x, c as nat)
  {
    ClearFlag(x, c);
    ClearFacts(x, y, c, c);
  }

  /** An array with the element at `pos` dropped is the original with that element spliced out. */
  lemma ShiftedBack<V>(n: Main<V>, r: Main<V>, pos: nat)
    requires n.CNode? && r.CNode? && pos < |n.arr| && |r.arr| == |n.arr| - 1
    requires forall j :: 0 <= j < pos ==> r.arr[j] == n.arr[j]
    requires forall j :: pos <= j < |r.arr| ==> r.arr[j] == n.arr[j + 1]
    ensures Spliced(n, r, pos, n.arr[pos])
  {
    forall j | pos < j < |n.arr|
      ensures n.arr[j] == r.arr[j - 1]
    {
      assert r.arr[j - 1] == n.arr[j - 1 + 1];
    }
  }

  /** Taking a branch out of a well-placed C-node leaves it well placed. */
  lemma UnspliceOK<V>(L0: Labels<V>, hf: Key -> bv64, n: Main<V>, r: Main<V>, c: bv6, b: Branch<V>, lab: Label)
    requires MainOK(L0, hf, n, lab) && SplicedIn(n, r, c, b)
    ensures MainOK(L0, hf, r, lab)
  {
    UnspliceCount(n, r, c, b);
    forall d: bv6 | Has(r.bmp, d)
      ensures CountFrom(r.bmp, d as nat) < |r.arr| && BranchOK(L0, hf, r.arr[CountFrom(r.bmp, d as nat)], lab + [d])
    {
      UnspliceSlot(L0, hf, n, r, c, b, lab, d);
    }
  }

  lemma UnspliceCount<V>(n: Main<V>, r: Main<V>, c: bv6, b: Branch<V>)
    requires SplicedIn(n, r, c, b) && |n.arr| == PopCount(n.bmp)
    ensures |r.arr| == PopCount(r.bmp)
  {
    var x, y := r.bmp, n.bmp;
    SetFacts(x, y, c, c);
  }

  /** Each bit left in the smaller C-node selects the branch it selected in the larger one. */
  lemma UnspliceSlot<V>(L0: Labels<V>, hf: Key -> bv64, n: Main<V>, r: Main<V>, c: bv6, b: Branch<V>, lab: Label, d: bv6)
    requires MainOK(L0, hf, n, lab) && SplicedIn(n, r, c, b) && Has(r.bmp, d)
    ensures CountFrom(r.bmp, d as nat) < |r.arr|
    ensures BranchOK(L0, hf, r.arr[CountFrom(r.bmp, d as nat)], lab + [d])
  {
    var x, y := r.bmp, n.bmp;
    var p, q, pos := CountFrom(x, d as nat), CountFrom(y, d as nat), CountFrom(x, c as nat);
    UnspliceCounts(x, y, c, d, p, q, pos);
    UnspliceAt(n, r, pos, b, p, q);
  }

  /** Where a bit left after clearing bit c sits, before and after. */
  lemma UnspliceCounts(x: bv64, y: bv64, c: bv6, d: bv6, p: nat, q: nat, pos: nat)
    requires !Has(x, c) && y == x | Flag(c) && Has(x, d)
    requires p == CountFrom(x, d as nat) && q == CountFrom(y, d as nat) && pos == CountFrom(x, c as nat)
    ensures Has(y, d) && q < PopCount(y)
    ensures (q == p && p < pos) || (q == p + 1 && pos <= p)
  {
    SetFacts(x, y, c, d);
    PosBound(y, d);
    if d < c {
      PosOrder(x, d, c);
    } else {
      PosMono(x, c, d);
    }
  }

  /** A position kept by a splice holds the same branch in both arrays. */
  lemma UnspliceAt<V>(n: Main<V>, r: Main<V>, pos: nat, b: Branch<V>, p: nat, q: nat)
    requires Spliced(n, r, pos, b) && q < |n.arr|
    requires (q == p && p < pos) || (q == p + 1 && pos <= p)
    ensures p < |r.arr| && r.arr[p] == n.arr[q]
  {
  }

  /** After removing the leaf of `e` from the C-node of `i`, a key under the label finds what it found, except e's key, which finds nothing. */
  lemma RemoveLeafKey<V>(H0: Heap<V>, L0: Labels<V>, hf: Key -> bv64, i: INode<V>, lev: nat, e: Entry<V>, r: Main<V>, k: Key)
    requires HeapOK(H0, L0, hf) && i in H0 && lev == 6 * |L0[i]| && OnPath(hf(k), L0[i])
    requires SplicedIn(H0[i], r, Chunk(e.hash, lev), Leaf(e)) && e.hash == hf(e.key)
    ensures Find(H0[i := r], i, lev, k, hf(k)) == if k == e.key then None else Find(H0, i, lev, k, hf(k))
  {
    var n, c, d := H0[i], Chunk(e.hash, lev), Chunk(hf(k), lev);
    CNodeDepth(H0, L0, hf, i);
    if d == c {
      RemoveLeafSame(H0, i, lev, e, r, k, hf(k));
    } else {
      if Has(r.bmp, d) {
        assert NodeOK(H0, L0, hf, i);
        UnspliceSlot(L0, hf, n, r, c, Leaf(e), L0[i], d);
      }
      SpliceOther(n, r, c, Leaf(e), d);
      OtherSlotKey(H0, L0, hf, i, lev, r, k);
    }
  }

  lemma RemoveLeafSame<V>(H0: Heap<V>, i: INode<V>, lev: nat, e: Entry<V>, r: Main<V>, k: Key, h: bv64)
    requires i in H0 && lev < Exp2 && SplicedIn(H0[i], r, Chunk(e.hash, lev), Leaf(e))
    requires Chunk(e.hash, lev) == Chunk(h, lev) && |H0[i].arr| == PopCount(H0[i].bmp)
    ensures Find(H0[i := r], i, lev, k, h) == if k == e.key then None else Find(H0, i, lev, k, h)
  {
    var c := Chunk(e.hash, lev);
    SetFacts(r.bmp, H0[i].bmp, c, c);
    SpliceCount(H0[i], r, c, Leaf(e));
    PathNoBit(H0[i := r], i, lev, h);
    PathLeaf(H0, i, lev, h, e);
  }

  /**
   * iremove at an S-node with the key: the C-node without the leaf, then
   * contracted, keeps the heap well formed and unbinds the key below `i`.
   */
  lemma RemoveLeafStep<V>(H0: Heap<V>, L0: Labels<V>, hf: Key -> bv64, i: INode<V>, lev: nat, e: Entry<V>, r: Main<V>)
    requires HeapOK(H0, L0, hf) && i in H0 && lev == 6 * |L0[i]| && e.hash == hf(e.key) && OnPath(e.hash, L0[i])
    requires SplicedIn(H0[i], r, Chunk(e.hash, lev), Leaf(e))
    ensures var H1 := H0[i := ToContracted(r, lev)];
      HeapOK(H1, L0, hf) && Unchanged(H0, H1, L0, L0[i]) && Rel(H0, H1, i, lev, hf, e.key, None)
  {
    var Hr := H0[i := r];
    assert NodeOK(H0, L0, hf, i);
    UnspliceOK(L0, hf, H0[i], r, Chunk(e.hash, lev), Leaf(e), L0[i]);
    ReplaceOK(H0, L0, hf, i, r);
    forall k | OnPath(hf(k), L0[i])
      ensures Find(Hr, i, lev, k, hf(k)) == if k == e.key then None else Find(H0, i, lev, k, hf(k))
    {
      RemoveLeafKey(H0, L0, hf, i, lev, e, r, k);
    }
    assert LabelsKept(L0, L0);
    RelFromOnPath(H0, Hr, L0, L0, hf, i, lev, e.key, None);
    ContractStep(Hr, L0, hf, i, lev);
    assert Hr[i := ToContracted(Hr[i], lev)] == H0[i := ToContracted(r, lev)];
    RelThenSame(H0, Hr, H0[i := ToContracted(r, lev)], i, lev, hf, e.key, None);
    UnchangedTrans(H0, Hr, H0[i := ToContracted(r, lev)], L0, L0, L0[i]);
  }

  // -----------------------------------------------------------------------
  // Removing from a collision list
  // -----------------------------------------------------------------------

  /** The main node iremove writes over a collision list: the list without `k`, or a tomb once one entry is left. */
  function LRemovedNode<V>(l: Lists.List<Entry<V>>, k: Key): (m: Main<V>)
    ensures m.TNode? <==> LLength(LRemoved(l, k)) == 1
    ensures m.TNode? ==> Lists.Elems(LRemoved(l, k)) == [m.e]
    ensures m.LNode? ==> m.l == LRemoved(l, k)
  {
    var nl := LRemoved(l, k);
    if LLength(nl) == 1 then Entomb(LEntry(nl)) else LNode(nl)
  }

  /** Every entry left after a removal was in the list. */
  lemma LRemovedSub<V>(l: Lists.List<Entry<V>>, k: Key)
    ensures forall x :: x in Lists.Elems(LRemoved(l, k)) ==> x in Lists.Elems(l)
  {
    var j := Lists.FindIndex(l, KeyIs(k));
    if j >= 0 {
      var s := Lists.Elems(l);
      assert forall x :: x in s[..j] + s[j + 1..] ==> x in s[..j] || x in s[j + 1..];
    }
  }

  /** The node left after removing from a well-placed collision list is well placed. */
  lemma LRemovedOK<V>(L0: Labels<V>, hf: Key -> bv64, l: Lists.List<Entry<V>>, k: Key, lab: Label)
    requires MainOK(L0, hf, LNode(l), lab)
    ensures MainOK(L0, hf, LRemovedNode(l, k), lab)
  {
    var m, nl := LRemovedNode(l, k), LRemoved(l, k);
    LRemovedSub(l, k);
    if m.TNode? {
      assert m.e in Lists.Elems(nl);
    } else {
      assert forall j :: 0 <= j < |Lists.Elems(nl)| ==> Lists.Elems(nl)[j] in Lists.Elems(l);
    }
  }

  /** What a key finds at the node left after removing `k` from a collision list. */
  lemma LRemovedFind<V>(H0: Heap<V>, i: INode<V>, lev: nat, l: Lists.List<Entry<V>>, k: Key, k': Key, h: bv64)
    requires i in H0
    ensures Find(H0[i := LRemovedNode(l, k)], i, lev, k', h) ==
      if k' == k then LLookup(LRemoved(l, k), k) else LLookup(l, k')
  {
    var m, nl := LRemovedNode(l, k), LRemoved(l, k);
    assert Find(H0[i := m], i, lev, k', h) == LLookup(nl, k') by {
      if m.TNode? {
        assert FirstValue(Lists.Elems(nl), k') == FirstValue([m.e], k');
      }
    }
    if k' != k {
      LRemovedLookup(l, k, k');
    }
  }

  /**
   * iremove at a collision list: the heap stays well formed and `k` then
   * maps to what remains for it after removing its first entry; every
   * other key is unchanged.
   */
  lemma LRemoveStep<V>(H0: Heap<V>, L0: Labels<V>, hf: Key -> bv64, i: INode<V>, lev: nat, k: Key)
    requires HeapOK(H0, L0, hf) && i in H0 && H0[i].LNode?
    ensures var H1 := H0[i := LRemovedNode(H0[i].l, k)];
      HeapOK(H1, L0, hf) && Unchanged(H0, H1, L0, L0[i]) &&
      Find(H0, i, lev, k, hf(k)) == LLookup(H0[i].l, k) &&
      Rel(H0, H1, i, lev, hf, k, Shadow(H0, i, lev, k, hf(k)))
  {
    var l := H0[i].l;
    assert NodeOK(H0, L0, hf, i);
    LRemovedOK(L0, hf, l, k, L0[i]);
    ReplaceOK(H0, L0, hf, i, LRemovedNode(l, k));
    forall k' | true
      ensures Find(H0[i := LRemovedNode(l, k)], i, lev, k', hf(k')) ==
        if k' == k then Shadow(H0, i, lev, k, hf(k)) else Find(H0, i, lev, k', hf(k'))
    {
      LRemovedFind(H0, i, lev, l, k, k', hf(k'));
    }
  }
}
