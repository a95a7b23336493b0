/**
 * The writes of iremove and the facts ilookup and iremove report, on the
 * heap view: what a key finds at the node a step reports at, the removal
 * of a leaf or of a collision-list entry, and cleanParent's write.
 */
module Removes {
  import opened Bits
  import opened Wrappers
  import opened Node
  import opened View
  import opened Util
  import opened Steps
  import opened Shrink
  import opened Writes

  /** Below the reporting node, the path of `h` ends where it ends below `i`. */
  lemma FindAt<V>(H: Heap<V>, L: Labels<V>, hf: Key -> bv64, i: INode<V>, lev: nat, parent: INode?<V>, h: bv64)
    requires HeapOK(H, L, hf) && i in L && lev == 6 * |L[i]|
    requires parent != null ==> W <= lev && Below(H, L, parent, i, lev - W, Chunk(h, lev - W), h)
    ensures Top(i, parent) in H && Top(i, parent) in L
    ensures Last(PathOf(H, Top(i, parent), 6 * |L[Top(i, parent)]|, h)) == Last(PathOf(H, i, lev, h))
  {
    if parent != null {
      BelowPath(H, L, parent, i, lev - W, Chunk(h, lev - W), h);
      CNodeDepth(H, L, hf, parent);
      PathDown(H, parent, i, lev - W, h);
    }
  }

  /** A key that finds nothing below `i` is left as it is: removing it changes nothing at the reporting node. */
  lemma Untouched<V>(H0: Heap<V>, L0: Labels<V>, hf: Key -> bv64, i: INode<V>, lev: nat, parent: INode?<V>, k: Key)
    requires HeapOK(H0, L0, hf) && i in L0 && lev == 6 * |L0[i]|
    requires parent != null ==> W <= lev && Below(H0, L0, parent, i, lev - W, Chunk(hf(k), lev - W), hf(k))
    requires Find(H0, i, lev, k, hf(k)) == None
    ensures Shadow(H0, i, lev, k, hf(k)) == None
    ensures Rel(H0, H0, Top(i, parent), 6 * |L0[Top(i, parent)]|, hf, k, Shadow(H0, i, lev, k, hf(k)))
  {
    FindAt(H0, L0, hf, i, lev, parent, hf(k));
    ShadowOfNone(Last(PathOf(H0, i, lev, hf(k))), k);
  }

  /** At a C-node without the key's chunk, nothing is found and nothing is removed. */
  lemma NoBitNone<V>(H0: Heap<V>, L0: Labels<V>, hf: Key -> bv64, i: INode<V>, lev: nat, parent: INode?<V>, k: Key)
    requires HeapOK(H0, L0, hf) && i in H0 && lev == 6 * |L0[i]| && H0[i].CNode? && !Has(H0[i].bmp, Chunk(hf(k), lev))
    requires parent != null ==> W <= lev && Below(H0, L0, parent, i, lev - W, Chunk(hf(k), lev - W), hf(k))
    ensures Find(H0, i, lev, k, hf(k)) == None
    ensures Rel(H0, H0, Top(i, parent), 6 * |L0[Top(i, parent)]|, hf, k, Shadow(H0, i, lev, k, hf(k)))
  {
    CNodeDepth(H0, L0, hf, i);
    PathNoBit(H0, i, lev, hf(k));
    Untouched(H0, L0, hf, i, lev, parent, k);
  }

  /** At a C-node whose branch for the key's chunk is a leaf, the key finds that leaf's value if the keys match. */
  lemma LeafFound<V>(H0: Heap<V>, L0: Labels<V>, hf: Key -> bv64, i: INode<V>, lev: nat, parent: INode?<V>, k: Key,
                     sn: Entry<V>, pos: nat)
    requires HeapOK(H0, L0, hf) && i in H0 && lev == 6 * |L0[i]| && H0[i].CNode? && Has(H0[i].bmp, Chunk(hf(k), lev))
    requires pos == CountFrom(H0[i].bmp, Chunk(hf(k), lev) as nat) && pos < |H0[i].arr| && H0[i].arr[pos] == Leaf(sn)
    requires parent != null ==> W <= lev && Below(H0, L0, parent, i, lev - W, Chunk(hf(k), lev - W), hf(k))
    ensures Find(H0, i, lev, k, hf(k)) == if sn.key == k then Some(sn.value) else None
    ensures Shadow(H0, i, lev, k, hf(k)) == None
    ensures sn.key != k ==> Rel(H0, H0, Top(i, parent), 6 * |L0[Top(i, parent)]|, hf, k, Shadow(H0, i, lev, k, hf(k)))
  {
    CNodeDepth(H0, L0, hf, i);
    PathLeaf(H0, i, lev, hf(k), sn);
    if sn.key != k {
      Untouched(H0, L0, hf, i, lev, parent, k);
    }
  }

  /** The leaf's removal, contracted, unbinds its key at the reporting node and changes nothing outside `i`. */
  lemma LeafRemoveView<V>(H0: Heap<V>, L0: Labels<V>, hf: Key -> bv64, i: INode<V>, lev: nat, parent: INode?<V>,
                          e: Entry<V>, r: Main<V>)
    returns (Hn: Heap<V>)
    requires HeapOK(H0, L0, hf) && i in H0 && lev == 6 * |L0[i]| && EntryOK(hf, e, L0[i])
    requires SplicedIn(H0[i], r, Chunk(e.hash, lev), Leaf(e))
    requires parent != null ==> W <= lev && Below(H0, L0, parent, i, lev - W, Chunk(e.hash, lev - W), e.hash)
    ensures Hn == H0[i := ToContracted(r, lev)] && HeapOK(Hn, L0, hf)
    ensures Unchanged(H0, Hn, L0, L0[Top(i, parent)])
    ensures Rel(H0, Hn, Top(i, parent), 6 * |L0[Top(i, parent)]|, hf, e.key, None)
  {
    RemoveLeafStep(H0, L0, hf, i, lev, e, r);
    Hn := H0[i := ToContracted(r, lev)];
    LiftUp(H0, L0, Hn, L0, hf, i, lev, parent, e.key, None, true);
  }

  /** The C-node `removed` builds, as a splice: the leaf at `pos` spliced back in gives the old C-node. */
  lemma RemovedSplice<V>(n: Main<V>, r: Main<V>, c: bv6, flag: bv64, pos: nat, e: Entry<V>)
    requires n.CNode? && r.CNode? && Has(n.bmp, c) && flag == Flag(c) && r.bmp == n.bmp ^ flag
    requires pos == CountFrom(n.bmp, c as nat) && pos < |n.arr| && n.arr[pos] == Leaf(e) && |r.arr| == |n.arr| - 1
    requires forall j :: 0 <= j < pos ==> r.arr[j] == n.arr[j]
    requires forall j :: pos <= j < |r.arr| ==> r.arr[j] == n.arr[j + 1]
    ensures SplicedIn(n, r, c, Leaf(e))
  {
    var x, y := n.bmp, r.bmp;
    RemovedIsSplice(n, r, c, x, y, pos);
  }

  /**
   * cleanParent's write: the tomb below `p` replaced by its leaf and the
   * C-node contracted keeps the heap well formed and the view below `p`.
   */
  lemma CleanParentView<V>(H1: Heap<V>, L: Labels<V>, hf: Key -> bv64, p: INode<V>, lev: nat, i: INode<V>, pos: nat,
                           gen: Generation?)
    returns (Hn: Heap<V>)
    requires HeapOK(H1, L, hf) && p in H1 && lev == 6 * |L[p]| && H1[p].CNode?
    requires pos < |H1[p].arr| && H1[p].arr[pos] == Ind(i) && i in H1 && H1[i].TNode?
    ensures Hn == H1[p := ToContracted(Updated(H1[p], pos, Resurrect(i, H1[i]), gen), lev)]
    ensures HeapOK(Hn, L, hf) && Unchanged(H1, Hn, L, L[p]) && Same(H1, Hn, p, lev, hf)
  {
    UpdatedRevives(H1, H1[p], pos, i, gen);
    CleanParentStep(H1, L, hf, p, lev, Updated(H1[p], pos, Resurrect(i, H1[i]), gen));
    Hn := H1[p := ToContracted(Updated(H1[p], pos, Resurrect(i, H1[i]), gen), lev)];
  }

  /**
   * iremove's write at a collision list: the key then maps, at the
   * reporting node, to what is left for it after its first entry goes.
   */
  lemma LRemoveView<V>(H0: Heap<V>, L0: Labels<V>, hf: Key -> bv64, i: INode<V>, lev: nat, parent: INode?<V>, k: Key)
    returns (Hn: Heap<V>)
    requires HeapOK(H0, L0, hf) && i in H0 && lev == 6 * |L0[i]| && H0[i].LNode?
    requires parent != null ==> W <= lev && Below(H0, L0, parent, i, lev - W, Chunk(hf(k), lev - W), hf(k))
    ensures Hn == H0[i := LRemovedNode(H0[i].l, k)] && HeapOK(Hn, L0, hf)
    ensures Find(H0, i, lev, k, hf(k)) == LLookup(H0[i].l, k)
    ensures Unchanged(H0, Hn, L0, L0[Top(i, parent)])
    ensures Rel(H0, Hn, Top(i, parent), 6 * |L0[Top(i, parent)]|, hf, k, Shadow(H0, i, lev, k, hf(k)))
  {
    LRemoveStep(H0, L0, hf, i, lev, k);
    Hn := H0[i := LRemovedNode(H0[i].l, k)];
    LiftUp(H0, L0, Hn, L0, hf, i, lev, parent, k, Shadow(H0, i, lev, k, hf(k)), true);
  }

  /** A change that keeps the view at the reporting node keeps what a key finds below `i`. */
  lemma RenewedFind<V>(H0: Heap<V>, L0: Labels<V>, Hr: Heap<V>, Lr: Labels<V>, hf: Key -> bv64, i: INode<V>, lev: nat,
                       parent: INode?<V>, k: Key)
    requires HeapOK(H0, L0, hf) && HeapOK(Hr, Lr, hf) && LabelsKept(L0, Lr) && i in L0 && lev == 6 * |L0[i]|
    requires parent != null ==> W <= lev && Below(H0, L0, parent, i, lev - W, Chunk(hf(k), lev - W), hf(k))
    requires parent != null ==> Below(Hr, Lr, parent, i, lev - W, Chunk(hf(k), lev - W), hf(k))
    requires Same(H0, Hr, Top(i, parent), 6 * |L0[Top(i, parent)]|, hf)
    ensures Find(Hr, i, lev, k, hf(k)) == Find(H0, i, lev, k, hf(k))
    ensures Shadow(Hr, i, lev, k, hf(k)) == Shadow(H0, i, lev, k, hf(k))
  {
    FindAt(H0, L0, hf, i, lev, parent, hf(k));
    FindAt(Hr, Lr, hf, i, lev, parent, hf(k));
  }
}
