/**
 * The writes of the trie engine, one lemma per kind, in the form the engine
 * uses them: the heap stays well formed, nothing outside the subtree of the
 * written I-node changes, and the view below it changes as the operation
 * intends. The lifting lemmas carry a result from a child I-node to its
 * parent, where the engine reports it.
 */
module Writes {
  import opened Bits
  import opened Wrappers
  import opened Node
  import opened View
  import opened Steps
  import opened Util
  import opened Shrink

  /** The I-node a step reports at: its parent, or the node itself at the root. */
  function Top<V>(i: INode<V>, parent: INode?<V>): INode<V>
  {
    if parent == null then i else parent
  }

  /**
   * A failed attempt that must be retried: the view below `x` is unchanged,
   * the tomb on the path of `h` has moved up (or gone), and no collapse was
   * created.
   */
  ghost predicate Retry<V>(H0: Heap<V>, H1: Heap<V>, x: INode<V>, lev: nat, hf: Key -> bv64, h: bv64)
  {
    Same(H0, H1, x, lev, hf) && Tomb(H1, x, lev, h) < Tomb(H0, x, lev, h) &&
    (Collapses(H1, x, lev, h) ==> Collapses(H0, x, lev, h))
  }

  // -----------------------------------------------------------------------
  // Single writes
  // -----------------------------------------------------------------------

  /** renewif: renewing only when the generation differs keeps every path from `i`. */
  lemma RenewifStep<V>(H0: Heap<V>, L0: Labels<V>, hf: Key -> bv64, i: INode<V>, lev: nat,
                       r: Main<V>, copies: map<INode<V>, INode<V>>, gen: Generation?)
    requires HeapOK(H0, L0, hf) && i in H0 && lev == 6 * |L0[i]| && H0[i].CNode?
    requires H0[i].gen == gen ==> r == H0[i] && copies == map[]
    requires H0[i].gen != gen ==> RenewedFrom(r, H0[i], gen, copies)
    requires forall y :: y in copies ==> y !in H0
    ensures var Hr, Lr := RenewHeap(H0, i, r, copies), RenewLabels(L0, copies);
      HeapOK(Hr, Lr, hf) && LabelsKept(L0, Lr) && Unchanged(H0, Hr, L0, L0[i]) &&
      i in Hr && Hr[i] == r && SamePaths(H0, Hr, L0, i, lev) &&
      (forall x :: x in H0 && x != i ==> x in Hr && Hr[x] == H0[x])
  {
    if H0[i].gen == gen {
      assert RenewHeap(H0, i, r, copies) == H0;
      assert RenewLabels(L0, copies) == L0;
    } else {
      RenewStep(H0, L0, hf, i, lev, r, copies, gen);
    }
  }

  /** nobit: the leaf spliced in where the bit was clear binds its key and keeps every other. */
  lemma NoBitWrite<V>(H0: Heap<V>, L0: Labels<V>, hf: Key -> bv64, i: INode<V>, lev: nat, e: Entry<V>, m: Main<V>)
    requires HeapOK(H0, L0, hf) && i in H0 && lev == 6 * |L0[i]| && EntryOK(hf, e, L0[i])
    requires SplicedIn(m, H0[i], Chunk(e.hash, lev), Leaf(e))
    ensures HeapOK(H0[i := m], L0, hf) && Unchanged(H0, H0[i := m], L0, L0[i])
    ensures Rel(H0, H0[i := m], i, lev, hf, e.key, Some(e.value))
  {
    NoBitStep(H0, L0, hf, i, lev, e, m);
    ReplaceOK(H0, L0, hf, i, m);
    assert LabelsKept(L0, L0);
    RelFromOnPath(H0, H0[i := m], L0, L0, hf, i, lev, e.key, Some(e.value));
  }

  /** branchsnode, same key: the leaf replaced by the new entry binds the new value. */
  lemma UpdateLeafWrite<V>(H0: Heap<V>, L0: Labels<V>, hf: Key -> bv64, i: INode<V>, lev: nat, e: Entry<V>,
                           pos: nat, m: Main<V>)
    requires HeapOK(H0, L0, hf) && i in H0 && lev == 6 * |L0[i]| && EntryOK(hf, e, L0[i])
    requires SwappedAt(m, H0[i], Chunk(e.hash, lev), Leaf(e)) && pos == CountFrom(H0[i].bmp, Chunk(e.hash, lev) as nat)
    requires H0[i].arr[pos].Leaf? && H0[i].arr[pos].e.key == e.key
    ensures HeapOK(H0[i := m], L0, hf) && Unchanged(H0, H0[i := m], L0, L0[i])
    ensures Rel(H0, H0[i := m], i, lev, hf, e.key, Some(e.value))
  {
    UpdateLeafStep(H0, L0, hf, i, lev, e, m);
    ReplaceOK(H0, L0, hf, i, m);
    assert LabelsKept(L0, L0);
    RelFromOnPath(H0, H0[i := m], L0, L0, hf, i, lev, e.key, Some(e.value));
  }

  /** lNode.inserted: the entry put in front of the collision list binds its key. */
  lemma LInsertWrite<V>(H0: Heap<V>, L0: Labels<V>, hf: Key -> bv64, i: INode<V>, lev: nat, e: Entry<V>)
    requires HeapOK(H0, L0, hf) && i in H0 && lev == 6 * |L0[i]| && H0[i].LNode? && EntryOK(hf, e, L0[i])
    ensures var H1 := H0[i := LNode(LInserted(H0[i].l, e))];
      HeapOK(H1, L0, hf) && Unchanged(H0, H1, L0, L0[i]) && Rel(H0, H1, i, lev, hf, e.key, Some(e.value))
  {
    LInsertStep(H0, L0, hf, i, lev, e);
    ReplaceOK(H0, L0, hf, i, LNode(LInserted(H0[i].l, e)));
  }

  /** A renewal followed by a write at the same node has the write's effect. */
  lemma RenewThenRel<V>(H0: Heap<V>, L0: Labels<V>, Hr: Heap<V>, Lr: Labels<V>, H2: Heap<V>, L2: Labels<V>,
                        hf: Key -> bv64, i: INode<V>, lev: nat, key: Key, nv: Option<V>)
    requires HeapOK(H0, L0, hf) && HeapOK(Hr, Lr, hf) && HeapOK(H2, L2, hf)
    requires LabelsKept(L0, Lr) && LabelsKept(Lr, L2)
    requires i in H0 && lev == 6 * |L0[i]| && SamePaths(H0, Hr, L0, i, lev)
    requires Unchanged(H0, Hr, L0, L0[i]) && Unchanged(Hr, H2, Lr, L0[i])
    requires Rel(Hr, H2, i, lev, hf, key, nv)
    ensures LabelsKept(L0, L2) && Unchanged(H0, H2, L0, L0[i]) && Rel(H0, H2, i, lev, hf, key, nv)
  {
    SamePathsSame(H0, Hr, L0, Lr, hf, i, lev);
    SameThenRel(H0, Hr, H2, i, lev, hf, key, nv);
    UnchangedTrans(H0, Hr, H2, L0, Lr, L0[i]);
  }

  // -----------------------------------------------------------------------
  // Lifting a result from a child to its parent
  // -----------------------------------------------------------------------

  /** The facts a lift needs: `i` is the child of `p` at chunk `c`, on the path of `h`. */
  ghost predicate Below<V>(H0: Heap<V>, L0: Labels<V>, p: INode<V>, i: INode<V>, levp: nat, c: bv6, h: bv64)
  {
    ChildAt(H0, p, c, i) && p in L0 && i in L0 && L0[i] == L0[p] + [c] && levp == 6 * |L0[p]| &&
    OnPath(h, L0[i])
  }

  lemma BelowPath<V>(H0: Heap<V>, L0: Labels<V>, p: INode<V>, i: INode<V>, levp: nat, c: bv6, h: bv64)
    requires Below(H0, L0, p, i, levp, c, h)
    ensures OnPath(h, L0[p]) && Chunk(h, levp) == c
  {
    assert L0[i][|L0[p]|] == c;
    assert forall j :: 0 <= j < |L0[p]| ==> L0[p][j] == L0[i][j];
  }

  lemma RelUp<V>(H0: Heap<V>, L0: Labels<V>, H1: Heap<V>, L1: Labels<V>, hf: Key -> bv64,
                 p: INode<V>, i: INode<V>, levp: nat, c: bv6, key: Key, nv: Option<V>)
    requires HeapOK(H0, L0, hf) && HeapOK(H1, L1, hf) && LabelsKept(L0, L1)
    requires Below(H0, L0, p, i, levp, c, hf(key)) && Unchanged(H0, H1, L0, L0[i])
    requires Rel(H0, H1, i, levp + W, hf, key, nv)
    ensures Rel(H0, H1, p, levp, hf, key, nv) && Unchanged(H0, H1, L0, L0[p])
  {
    BelowPath(H0, L0, p, i, levp, c, hf(key));
    RelLift(H0, H1, L0, L1, hf, p, i, levp, c, key, nv);
    UnchangedWeaken(H0, H1, L0, L0[p], L0[i]);
  }

  lemma SameUp<V>(H0: Heap<V>, L0: Labels<V>, H1: Heap<V>, L1: Labels<V>, hf: Key -> bv64,
                  p: INode<V>, i: INode<V>, levp: nat, c: bv6, h: bv64)
    requires HeapOK(H0, L0, hf) && HeapOK(H1, L1, hf) && LabelsKept(L0, L1)
    requires Below(H0, L0, p, i, levp, c, h) && Unchanged(H0, H1, L0, L0[i])
    requires Same(H0, H1, i, levp + W, hf)
    ensures Same(H0, H1, p, levp, hf) && Unchanged(H0, H1, L0, L0[p])
  {
    SameLift(H0, H1, L0, L1, hf, p, i, levp, c);
    UnchangedWeaken(H0, H1, L0, L0[p], L0[i]);
  }

  lemma RetryUp<V>(H0: Heap<V>, L0: Labels<V>, H1: Heap<V>, L1: Labels<V>, hf: Key -> bv64,
                   p: INode<V>, i: INode<V>, levp: nat, c: bv6, h: bv64)
    requires HeapOK(H0, L0, hf) && HeapOK(H1, L1, hf) && LabelsKept(L0, L1)
    requires Below(H0, L0, p, i, levp, c, h) && Unchanged(H0, H1, L0, L0[i])
    requires Retry(H0, H1, i, levp + W, hf, h)
    ensures Retry(H0, H1, p, levp, hf, h) && Unchanged(H0, H1, L0, L0[p])
  {
    BelowPath(H0, L0, p, i, levp, c, h);
    SameLift(H0, H1, L0, L1, hf, p, i, levp, c);
    TombLift(H0, H1, L0, hf, p, i, levp, c, h);
    CollapseLift(H0, H1, L0, hf, p, i, levp, c, h);
    UnchangedWeaken(H0, H1, L0, L0[p], L0[i]);
  }

  /** A result reported at `i` is reported at the parent too, the path to `i` passing through it. */
  lemma LiftUp<V>(H0: Heap<V>, L0: Labels<V>, H1: Heap<V>, L1: Labels<V>, hf: Key -> bv64, i: INode<V>, lev: nat,
                  parent: INode?<V>, k: Key, nv: Option<V>, ok: bool)
    requires HeapOK(H0, L0, hf) && HeapOK(H1, L1, hf) && LabelsKept(L0, L1) && i in L0 && lev == 6 * |L0[i]|
    requires parent != null ==> W <= lev && Below(H0, L0, parent, i, lev - W, Chunk(hf(k), lev - W), hf(k))
    requires Unchanged(H0, H1, L0, L0[i])
    requires ok ==> Rel(H0, H1, i, lev, hf, k, nv)
    requires !ok ==> Retry(H0, H1, i, lev, hf, hf(k))
    ensures Top(i, parent) in L0 && Unchanged(H0, H1, L0, L0[Top(i, parent)])
    ensures ok ==> Rel(H0, H1, Top(i, parent), 6 * |L0[Top(i, parent)]|, hf, k, nv)
    ensures !ok ==> Retry(H0, H1, Top(i, parent), 6 * |L0[Top(i, parent)]|, hf, hf(k))
  {
    if parent != null {
      if ok {
        RelUp(H0, L0, H1, L1, hf, parent, i, lev - W, Chunk(hf(k), lev - W), k, nv);
      } else {
        RetryUp(H0, L0, H1, L1, hf, parent, i, lev - W, Chunk(hf(k), lev - W), hf(k));
      }
    }
  }

  /** A lookup's result reported at `i` is reported at the parent too. */
  lemma LiftSame<V>(H0: Heap<V>, L0: Labels<V>, H1: Heap<V>, L1: Labels<V>, hf: Key -> bv64, i: INode<V>, lev: nat,
                    parent: INode?<V>, h: bv64, ok: bool)
    requires HeapOK(H0, L0, hf) && HeapOK(H1, L1, hf) && LabelsKept(L0, L1) && i in L0 && lev == 6 * |L0[i]|
    requires parent != null ==> W <= lev && Below(H0, L0, parent, i, lev - W, Chunk(h, lev - W), h)
    requires Unchanged(H0, H1, L0, L0[i])
    requires ok ==> Same(H0, H1, i, lev, hf)
    requires !ok ==> Retry(H0, H1, i, lev, hf, h)
    ensures Top(i, parent) in L0 && Unchanged(H0, H1, L0, L0[Top(i, parent)])
    ensures ok ==> Same(H0, H1, Top(i, parent), 6 * |L0[Top(i, parent)]|, hf)
    ensures !ok ==> Retry(H0, H1, Top(i, parent), 6 * |L0[Top(i, parent)]|, hf, h)
  {
    if parent != null {
      if ok {
        SameUp(H0, L0, H1, L1, hf, parent, i, lev - W, Chunk(h, lev - W), h);
      } else {
        RetryUp(H0, L0, H1, L1, hf, parent, i, lev - W, Chunk(h, lev - W), h);
      }
    }
  }

  lemma PathsUp<V>(H0: Heap<V>, L0: Labels<V>, H1: Heap<V>, hf: Key -> bv64,
                   p: INode<V>, i: INode<V>, levp: nat, c: bv6, h: bv64)
    requires HeapOK(H0, L0, hf) && Below(H0, L0, p, i, levp, c, h) && Unchanged(H0, H1, L0, L0[i])
    requires SamePaths(H0, H1, L0, i, levp + W)
    ensures SamePaths(H0, H1, L0, p, levp) && Unchanged(H0, H1, L0, L0[p])
  {
    SamePathsLift(H0, H1, L0, hf, p, i, levp, c);
    UnchangedWeaken(H0, H1, L0, L0[p], L0[i]);
  }

  // -----------------------------------------------------------------------
  // A renewal followed by a retried descent
  // -----------------------------------------------------------------------

  /**
   * What a renewal below `x` keeps: the labels, everything outside `x`'s
   * subtrie, the view below `x`, and how many tombs and whether a collapse
   * lie on every path from `x`.
   */
  ghost predicate ViewKept<V>(H0: Heap<V>, H1: Heap<V>, L0: Labels<V>, L1: Labels<V>, x: INode<V>, hf: Key -> bv64)
  {
    x in L0 && LabelsKept(L0, L1) && Unchanged(H0, H1, L0, L0[x]) && Same(H0, H1, x, 6 * |L0[x]|, hf) &&
    (forall h :: OnPath(h, L0[x]) ==> Tomb(H1, x, 6 * |L0[x]|, h) == Tomb(H0, x, 6 * |L0[x]|, h)) &&
    (forall h :: OnPath(h, L0[x]) ==> (Collapses(H1, x, 6 * |L0[x]|, h) <==> Collapses(H0, x, 6 * |L0[x]|, h)))
  }

  /**
   * The facts about a renewal at `x` that a retry from `x` builds on: the
   * renewal changed no path, hence no lookup, tomb or collapse.
   */
  lemma RenewedView<V>(H0: Heap<V>, L0: Labels<V>, Hr: Heap<V>, Lr: Labels<V>, hf: Key -> bv64, x: INode<V>, lev: nat)
    requires HeapOK(H0, L0, hf) && HeapOK(Hr, Lr, hf) && LabelsKept(L0, Lr)
    requires x in H0 && lev == 6 * |L0[x]| && SamePaths(H0, Hr, L0, x, lev)
    ensures Same(H0, Hr, x, lev, hf)
    ensures forall h :: OnPath(h, L0[x]) ==> Tomb(Hr, x, lev, h) == Tomb(H0, x, lev, h)
    ensures forall h :: OnPath(h, L0[x]) ==> (Collapses(Hr, x, lev, h) <==> Collapses(H0, x, lev, h))
  {
    SamePathsSame(H0, Hr, L0, Lr, hf, x, lev);
  }

  lemma RetryAfterRenew<V>(H0: Heap<V>, Hr: Heap<V>, H2: Heap<V>, L0: Labels<V>, Lr: Labels<V>,
                           hf: Key -> bv64, x: INode<V>, lev: nat, h: bv64)
    requires x in L0 && OnPath(h, L0[x]) && Same(H0, Hr, x, lev, hf)
    requires forall h :: OnPath(h, L0[x]) ==> Tomb(Hr, x, lev, h) == Tomb(H0, x, lev, h)
    requires forall h :: OnPath(h, L0[x]) ==> (Collapses(Hr, x, lev, h) <==> Collapses(H0, x, lev, h))
    requires Retry(Hr, H2, x, lev, hf, h)
    ensures Retry(H0, H2, x, lev, hf, h)
  {
  }
}
