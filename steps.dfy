/**
 * How each single write of the trie engine changes the view: one lemma per
 * kind of new main node an I-node receives, stating that the heap stays
 * well formed and what every key then maps to below that I-node.
 */
module Steps {
  import opened Bits
  import Lists
  import opened Wrappers
  import opened Node
  import opened View

  /** The end of a path with the C-node width forgotten: all that lookups read. */
  function Outcome<V>(s: Step<V>): Step<V>
  {
    match s
    case CStep(_, slot) => CStep(0, slot)
    case _ => s
  }

  lemma OutcomeFind<V>(s: Step<V>, t: Step<V>, k: Key)
    requires Outcome(s) == Outcome(t)
    ensures FindStep(s, k) == FindStep(t, k) && ShadowStep(s, k) == ShadowStep(t, k)
  {
  }

  /** Keys whose chunk differs from the chunk of an entry's hash are not the entry's key. */
  lemma OtherChunk<V>(hf: Key -> bv64, e: Entry<V>, k: Key, lev: nat)
    requires e.hash == hf(e.key) && Chunk(e.hash, lev) != Chunk(hf(k), lev)
    ensures e.key != k
  {
  }

  // -----------------------------------------------------------------------
  // From per-key facts to the relations
  // -----------------------------------------------------------------------

  /** Equal outcomes on every path under the label give an unchanged view. */
  lemma SameFromOutcomes<V>(H0: Heap<V>, H1: Heap<V>, L0: Labels<V>, L1: Labels<V>, hf: Key -> bv64,
                            i: INode<V>, lev: nat)
    requires HeapOK(H0, L0, hf) && HeapOK(H1, L1, hf) && LabelsKept(L0, L1)
    requires i in H0 && lev == 6 * |L0[i]|
    requires forall h :: OnPath(h, L0[i]) ==>
      Outcome(Last(PathOf(H1, i, lev, h))) == Outcome(Last(PathOf(H0, i, lev, h)))
    ensures Same(H0, H1, i, lev, hf)
  {
    forall k
      ensures Find(H1, i, lev, k, hf(k)) == Find(H0, i, lev, k, hf(k)) &&
              Shadow(H1, i, lev, k, hf(k)) == Shadow(H0, i, lev, k, hf(k))
    {
      var h := hf(k);
      if OnPath(h, L0[i]) {
        OutcomeFind(Last(PathOf(H1, i, lev, h)), Last(PathOf(H0, i, lev, h)), k);
      } else {
        OffPath(H0, L0, hf, i, lev, k);
        OffPath(H1, L1, hf, i, lev, k);
        ShadowOfNone(Last(PathOf(H0, i, lev, h)), k);
        ShadowOfNone(Last(PathOf(H1, i, lev, h)), k);
      }
    }
  }

  /** A change stated for the keys under the label is the change for all keys. */
  lemma RelFromOnPath<V>(H0: Heap<V>, H1: Heap<V>, L0: Labels<V>, L1: Labels<V>, hf: Key -> bv64,
                         i: INode<V>, lev: nat, key: Key, nv: Option<V>)
    requires HeapOK(H0, L0, hf) && HeapOK(H1, L1, hf) && LabelsKept(L0, L1)
    requires i in H0 && lev == 6 * |L0[i]| && OnPath(hf(key), L0[i])
    requires forall k :: OnPath(hf(k), L0[i]) ==>
      Find(H1, i, lev, k, hf(k)) == if k == key then nv else Find(H0, i, lev, k, hf(k))
    ensures Rel(H0, H1, i, lev, hf, key, nv)
  {
    forall k
      ensures Find(H1, i, lev, k, hf(k)) == if k == key then nv else Find(H0, i, lev, k, hf(k))
    {
      if !OnPath(hf(k), L0[i]) {
        OffPath(H0, L0, hf, i, lev, k);
        OffPath(H1, L1, hf, i, lev, k);
      }
    }
  }

  // -----------------------------------------------------------------------
  // Paths through a C-node whose slot is kept
  // -----------------------------------------------------------------------

  /** The slot a chunk selects holds the same branch in C-nodes `m` and `n`. */
  ghost predicate SlotSame<V>(m: Main<V>, n: Main<V>, d: bv6)
    requires m.CNode? && n.CNode?
  {
    Has(m.bmp, d) == Has(n.bmp, d) &&
    (Has(m.bmp, d) ==>
      CountFrom(m.bmp, d as nat) < |m.arr| && CountFrom(n.bmp, d as nat) < |n.arr| &&
      m.arr[CountFrom(m.bmp, d as nat)] == n.arr[CountFrom(n.bmp, d as nat)])
  }

  /** When a C-node is replaced and its slot for the hash is kept, the path ends alike. */
  lemma SlotKept<V>(H0: Heap<V>, H1: Heap<V>, L0: Labels<V>, hf: Key -> bv64,
                    i: INode<V>, lev: nat, h: bv64, m: Main<V>)
    requires HeapOK(H0, L0, hf) && i in H0 && lev == 6 * |L0[i]| && OnPath(h, L0[i])
    requires H0[i].CNode? && m.CNode? && i in H1 && H1[i] == m
    requires Agree(H0, H1, L0, h, |L0[i]| + 1)
    requires SlotSame(m, H0[i], Chunk(h, lev))
    ensures Outcome(Last(PathOf(H1, i, lev, h))) == Outcome(Last(PathOf(H0, i, lev, h)))
  {
    var n := H0[i];
    var d := Chunk(h, lev);
    assert NodeOK(H0, L0, hf, i);
    if Has(n.bmp, d) {
      var q := CountFrom(n.bmp, d as nat);
      assert BranchOK(L0, hf, n.arr[q], L0[i] + [d]);
      if n.arr[q].Ind? {
        SlotKeptDown(H0, H1, L0, hf, i, lev, h, n.arr[q].i);
      }
    }
  }

  lemma SlotKeptDown<V>(H0: Heap<V>, H1: Heap<V>, L0: Labels<V>, hf: Key -> bv64,
                        i: INode<V>, lev: nat, h: bv64, j: INode<V>)
    requires HeapOK(H0, L0, hf) && i in H0 && lev == 6 * |L0[i]| && OnPath(h, L0[i]) && lev < Exp2
    requires ChildAt(H0, i, Chunk(h, lev), j) && ChildAt(H1, i, Chunk(h, lev), j)
    requires j in L0 && L0[j] == L0[i] + [Chunk(h, lev)]
    requires Agree(H0, H1, L0, h, |L0[i]| + 1)
    ensures Last(PathOf(H1, i, lev, h)) == Last(PathOf(H0, i, lev, h))
  {
    OnPathExtend(h, L0[i]);
    PathFrame(H0, H1, L0, hf, j, lev + W, h);
    PathDown(H0, i, j, lev, h);
    PathDown(H1, i, j, lev, h);
  }

  // -----------------------------------------------------------------------
  // Renewal: a C-node whose I-nodes are copied to a new generation
  // -----------------------------------------------------------------------

  ghost function RenewHeap<V>(H0: Heap<V>, i: INode<V>, r: Main<V>, copies: map<INode<V>, INode<V>>): Heap<V>
  {
    H0[i := r] + map y | y in copies && copies[y] in H0 :: H0[copies[y]]
  }

  ghost function RenewLabels<V>(L0: Labels<V>, copies: map<INode<V>, INode<V>>): Labels<V>
  {
    L0 + map y | y in copies && copies[y] in L0 :: L0[copies[y]]
  }

  /**
   * Renewing the C-node of `i` (each I-node below it replaced by a fresh copy
   * with the same main node) keeps the heap well formed and every path from
   * `i` exactly as it was.
   */
  lemma RenewStep<V>(H0: Heap<V>, L0: Labels<V>, hf: Key -> bv64, i: INode<V>, lev: nat,
                     r: Main<V>, copies: map<INode<V>, INode<V>>, gen: Generation?)
    requires HeapOK(H0, L0, hf) && i in H0 && lev == 6 * |L0[i]| && H0[i].CNode?
    requires RenewedFrom(r, H0[i], gen, copies)
    requires forall y :: y in copies ==> y !in H0
    ensures var Hr, Lr := RenewHeap(H0, i, r, copies), RenewLabels(L0, copies);
      HeapOK(Hr, Lr, hf) && LabelsKept(L0, Lr) && Unchanged(H0, Hr, L0, L0[i]) &&
      i in Hr && Hr[i] == r && SamePaths(H0, Hr, L0, i, lev) &&
      (forall x :: x in H0 && x != i ==> x in Hr && Hr[x] == H0[x])
  {
    RenewOK(H0, L0, hf, i, r, copies, gen);
    forall h | OnPath(h, L0[i])
      ensures PathOf(RenewHeap(H0, i, r, copies), i, lev, h) == PathOf(H0, i, lev, h)
    {
      RenewPath(H0, L0, hf, i, lev, r, copies, gen, h);
    }
  }

  /** The renewed heap is well formed. */
  lemma RenewOK<V>(H0: Heap<V>, L0: Labels<V>, hf: Key -> bv64, i: INode<V>,
                   r: Main<V>, copies: map<INode<V>, INode<V>>, gen: Generation?)
    requires HeapOK(H0, L0, hf) && i in H0 && H0[i].CNode?
    requires RenewedFrom(r, H0[i], gen, copies)
    requires forall y :: y in copies ==> y !in H0
    ensures HeapOK(RenewHeap(H0, i, r, copies), RenewLabels(L0, copies), hf)
  {
    var Hr, Lr := RenewHeap(H0, i, r, copies), RenewLabels(L0, copies);
    assert Hr.Keys == Lr.Keys;
    assert LabelsKept(L0, Lr);
    RenewRootOK(H0, L0, hf, i, r, copies, gen);
    forall x | x in Hr
      ensures (x in H0 && Hr[x] == H0[x]) || MainOK(Lr, hf, Hr[x], Lr[x])
    {
      if x != i && x !in H0 {
        assert NodeOK(H0, L0, hf, copies[x]);
        MainOKMono(L0, Lr, hf, H0[copies[x]], L0[copies[x]]);
      }
    }
    HeapStep(H0, L0, Hr, Lr, hf);
  }

  /** The renewed C-node is well placed at the label of `i`. */
  lemma RenewRootOK<V>(H0: Heap<V>, L0: Labels<V>, hf: Key -> bv64, i: INode<V>,
                       r: Main<V>, copies: map<INode<V>, INode<V>>, gen: Generation?)
    requires HeapOK(H0, L0, hf) && i in H0 && H0[i].CNode?
    requires RenewedFrom(r, H0[i], gen, copies)
    ensures MainOK(RenewLabels(L0, copies), hf, r, L0[i])
  {
    assert NodeOK(H0, L0, hf, i);
    forall c: bv6 | Has(r.bmp, c)
      ensures CountFrom(r.bmp, c as nat) < |r.arr| &&
              BranchOK(RenewLabels(L0, copies), hf, r.arr[CountFrom(r.bmp, c as nat)], L0[i] + [c])
    {
      RenewSlot(L0, hf, H0[i], r, copies, gen, L0[i], c);
    }
  }

  /** Each bit of a renewed C-node selects the copy of the branch it selected before. */
  lemma RenewSlot<V>(L0: Labels<V>, hf: Key -> bv64, n: Main<V>, r: Main<V>,
                     copies: map<INode<V>, INode<V>>, gen: Generation?, lab: Label, c: bv6)
    requires MainOK(L0, hf, n, lab) && n.CNode? && RenewedFrom(r, n, gen, copies) && Has(r.bmp, c)
    ensures CountFrom(r.bmp, c as nat) < |r.arr|
    ensures BranchOK(RenewLabels(L0, copies), hf, r.arr[CountFrom(r.bmp, c as nat)], lab + [c])
  {
    var q := CountFrom(n.bmp, c as nat);
    assert BranchOK(L0, hf, n.arr[q], lab + [c]);
    assert CopiedBranch(r.arr[q], n.arr[q], copies);
  }

  /** A path from a renewed C-node passes the copies, which hold the same main nodes. */
  lemma RenewPath<V>(H0: Heap<V>, L0: Labels<V>, hf: Key -> bv64, i: INode<V>, lev: nat,
                     r: Main<V>, copies: map<INode<V>, INode<V>>, gen: Generation?, h: bv64)
    requires HeapOK(H0, L0, hf) && i in H0 && lev == 6 * |L0[i]| && H0[i].CNode?
    requires RenewedFrom(r, H0[i], gen, copies)
    requires forall y :: y in copies ==> y !in H0
    requires OnPath(h, L0[i])
    ensures PathOf(RenewHeap(H0, i, r, copies), i, lev, h) == PathOf(H0, i, lev, h)
  {
    var Hr := RenewHeap(H0, i, r, copies);
    var n, d := H0[i], Chunk(h, lev);
    CNodeDepth(H0, L0, hf, i);
    RenewKeeps(H0, i, r, copies);
    if Has(n.bmp, d) {
      BranchAt(H0, L0, hf, i, d);
      var q := CountFrom(n.bmp, d as nat);
      assert CopiedBranch(r.arr[q], n.arr[q], copies);
      match n.arr[q]
      case Ind(t) =>
        RenewDown(H0, L0, hf, i, lev, r, copies, h, t, r.arr[q].i);
      case Leaf(e) =>
        PathLeaf(H0, i, lev, h, e);
        PathLeaf(Hr, i, lev, h, e);
    } else {
      PathNoBit(H0, i, lev, h);
      PathNoBit(Hr, i, lev, h);
    }
  }

  lemma RenewDown<V>(H0: Heap<V>, L0: Labels<V>, hf: Key -> bv64, i: INode<V>, lev: nat,
                     r: Main<V>, copies: map<INode<V>, INode<V>>, h: bv64, t: INode<V>, y: INode<V>)
    requires HeapOK(H0, L0, hf) && i in H0 && lev == 6 * |L0[i]| && OnPath(h, L0[i])
    requires ChildAt(H0, i, Chunk(h, lev), t) && y in copies && copies[y] == t
    requires r.CNode? && r.bmp == H0[i].bmp && |r.arr| == |H0[i].arr|
    requires r.arr[CountFrom(r.bmp, Chunk(h, lev) as nat)] == Ind(y)
    requires forall y :: y in copies ==> y !in H0
    ensures PathOf(RenewHeap(H0, i, r, copies), i, lev, h) == PathOf(H0, i, lev, h)
  {
    var Hr := RenewHeap(H0, i, r, copies);
    CNodeDepth(H0, L0, hf, i);
    BranchAt(H0, L0, hf, i, Chunk(h, lev));
    RenewKeeps(H0, i, r, copies);
    OnPathExtend(h, L0[i]);
    SameMainPath(H0, Hr, L0, hf, y, t, lev + W, h);
    PathDown(H0, i, t, lev, h);
    PathDown(Hr, i, y, lev, h);
  }

  lemma RenewKeeps<V>(H0: Heap<V>, i: INode<V>, r: Main<V>, copies: map<INode<V>, INode<V>>)
    requires i in H0 && forall y :: y in copies ==> y !in H0
    ensures forall x :: x in H0 && x != i ==> x in RenewHeap(H0, i, r, copies) && RenewHeap(H0, i, r, copies)[x] == H0[x]
    ensures forall y :: y in copies && copies[y] in H0 ==> y in RenewHeap(H0, i, r, copies) && RenewHeap(H0, i, r, copies)[y] == H0[copies[y]]
    ensures i in RenewHeap(H0, i, r, copies) && RenewHeap(H0, i, r, copies)[i] == r
  {
  }

  // -----------------------------------------------------------------------
  // Inserting a new leaf where the bitmap bit is clear
  // -----------------------------------------------------------------------

  /** `m` is C-node `n` with branch `b` inserted at position `pos` of its array. */
  ghost predicate Spliced<V>(m: Main<V>, n: Main<V>, pos: nat, b: Branch<V>)
  {
    n.CNode? && m.CNode? && pos <= |n.arr| &&
    |m.arr| == |n.arr| + 1 && m.arr[pos] == b &&
    (forall j :: 0 <= j < pos ==> m.arr[j] == n.arr[j]) &&
    (forall j :: pos < j < |m.arr| ==> m.arr[j] == n.arr[j - 1])
  }

  /** `m` is C-node `n` with branch `b` spliced in for clear chunk `c`. */
  ghost predicate SplicedIn<V>(m: Main<V>, n: Main<V>, c: bv6, b: Branch<V>)
  {
    n.CNode? && m.CNode? && !Has(n.bmp, c) && m.bmp == n.bmp | Flag(c) &&
    Spliced(m, n, CountFrom(n.bmp, c as nat), b)
  }

  /** An old position keeps its branch, shifted by one at or after the splice. */
  lemma SpliceAt<V>(m: Main<V>, n: Main<V>, pos: nat, b: Branch<V>, pd: nat, qd: nat)
    requires Spliced(m, n, pos, b) && pd < |n.arr|
    requires (qd == pd + 1 && pos <= pd) || (qd == pd && pd < pos)
    ensures qd < |m.arr| && m.arr[qd] == n.arr[pd]
  {
  }

  /** The spliced C-node has one more bit, and chunk `c` selects the new branch. */
  lemma SpliceCount<V>(m: Main<V>, n: Main<V>, c: bv6, b: Branch<V>)
    requires SplicedIn(m, n, c, b) && |n.arr| == PopCount(n.bmp)
    ensures |m.arr| == PopCount(m.bmp)
    ensures Has(m.bmp, c) && CountFrom(m.bmp, c as nat) == CountFrom(n.bmp, c as nat)
    ensures CountFrom(m.bmp, c as nat) < |m.arr| && m.arr[CountFrom(m.bmp, c as nat)] == b
  {
    SetFacts(n.bmp, m.bmp, c, c);
  }

  lemma SpliceHas<V>(m: Main<V>, n: Main<V>, c: bv6, b: Branch<V>, d: bv6)
    requires SplicedIn(m, n, c, b) && d != c
    ensures Has(m.bmp, d) == Has(n.bmp, d)
  {
    SetFacts(n.bmp, m.bmp, c, d);
  }

  lemma SpliceLower<V>(m: Main<V>, n: Main<V>, c: bv6, b: Branch<V>, d: bv6)
    requires SplicedIn(m, n, c, b) && Has(n.bmp, d) && d < c
    ensures CountFrom(m.bmp, d as nat) == CountFrom(n.bmp, d as nat) < CountFrom(n.bmp, c as nat)
  {
    SetFacts(n.bmp, m.bmp, c, d);
    LtNat(d, c);
    PosOrder(n.bmp, d, c);
  }

  lemma SpliceUpper<V>(m: Main<V>, n: Main<V>, c: bv6, b: Branch<V>, d: bv6)
    requires SplicedIn(m, n, c, b) && c < d
    ensures CountFrom(m.bmp, d as nat) == CountFrom(n.bmp, d as nat) + 1
  {
    SetFacts(n.bmp, m.bmp, c, d);
  }

  lemma SpliceLow<V>(m: Main<V>, n: Main<V>, c: bv6, b: Branch<V>, d: bv6)
    requires SplicedIn(m, n, c, b) && Has(n.bmp, d) && d < c && CountFrom(n.bmp, d as nat) < |n.arr|
    ensures CountFrom(m.bmp, d as nat) < |m.arr| && m.arr[CountFrom(m.bmp, d as nat)] == n.arr[CountFrom(n.bmp, d as nat)]
  {
    SpliceLower(m, n, c, b, d);
    SpliceAt(m, n, CountFrom(n.bmp, c as nat), b, CountFrom(n.bmp, d as nat), CountFrom(m.bmp, d as nat));
  }

  lemma SpliceHigh<V>(m: Main<V>, n: Main<V>, c: bv6, b: Branch<V>, d: bv6)
    requires SplicedIn(m, n, c, b) && c < d && CountFrom(n.bmp, d as nat) < |n.arr|
    ensures CountFrom(m.bmp, d as nat) < |m.arr| && m.arr[CountFrom(m.bmp, d as nat)] == n.arr[CountFrom(n.bmp, d as nat)]
  {
    SpliceUpper(m, n, c, b, d);
    PosMono(n.bmp, c, d);
    SpliceAt(m, n, CountFrom(n.bmp, c as nat), b, CountFrom(n.bmp, d as nat), CountFrom(m.bmp, d as nat));
  }

  /** Every chunk other than `c` selects the branch it selected before the splice. */
  lemma SpliceOther<V>(m: Main<V>, n: Main<V>, c: bv6, b: Branch<V>, d: bv6)
    requires SplicedIn(m, n, c, b) && d != c
    requires Has(n.bmp, d) ==> CountFrom(n.bmp, d as nat) < |n.arr|
    ensures SlotSame(m, n, d)
  {
    SpliceHas(m, n, c, b, d);
    if Has(n.bmp, d) {
      if d < c {
        SpliceLow(m, n, c, b, d);
      } else {
        SpliceHigh(m, n, c, b, d);
      }
    }
  }

  /** The spliced C-node is well placed when the new branch is. */
  lemma SpliceOK<V>(L0: Labels<V>, hf: Key -> bv64, m: Main<V>, n: Main<V>, c: bv6, b: Branch<V>, lab: Label)
    requires MainOK(L0, hf, n, lab) && SplicedIn(m, n, c, b) && BranchOK(L0, hf, b, lab + [c])
    ensures MainOK(L0, hf, m, lab)
  {
    SpliceCount(m, n, c, b);
    forall d: bv6 | Has(m.bmp, d)
      ensures CountFrom(m.bmp, d as nat) < |m.arr| && BranchOK(L0, hf, m.arr[CountFrom(m.bmp, d as nat)], lab + [d])
    {
      SpliceSlot(L0, hf, m, n, c, b, lab, d);
    }
  }

  lemma SpliceSlot<V>(L0: Labels<V>, hf: Key -> bv64, m: Main<V>, n: Main<V>, c: bv6, b: Branch<V>, lab: Label, d: bv6)
    requires MainOK(L0, hf, n, lab) && SplicedIn(m, n, c, b) && BranchOK(L0, hf, b, lab + [c])
    requires Has(m.bmp, d)
    ensures CountFrom(m.bmp, d as nat) < |m.arr| && BranchOK(L0, hf, m.arr[CountFrom(m.bmp, d as nat)], lab + [d])
  {
    if d == c {
      SpliceCount(m, n, c, b);
    } else {
      SpliceOther(m, n, c, b, d);
    }
  }

  /**
   * nobit: splicing a leaf for `e` into the C-node of `i` where the bit of
   * its chunk is clear binds e's key to e's value and leaves every other key
   * as it was.
   */
  lemma NoBitStep<V>(H0: Heap<V>, L0: Labels<V>, hf: Key -> bv64, i: INode<V>, lev: nat, e: Entry<V>, m: Main<V>)
    requires HeapOK(H0, L0, hf) && i in H0 && lev == 6 * |L0[i]| && EntryOK(hf, e, L0[i])
    requires SplicedIn(m, H0[i], Chunk(e.hash, lev), Leaf(e))
    ensures MainOK(L0, hf, m, L0[i])
    ensures forall k :: OnPath(hf(k), L0[i]) ==>
      Find(H0[i := m], i, lev, k, hf(k)) == if k == e.key then Some(e.value) else Find(H0, i, lev, k, hf(k))
  {
    assert NodeOK(H0, L0, hf, i);
    OnPathExtend(e.hash, L0[i]);
    SpliceOK(L0, hf, m, H0[i], Chunk(e.hash, lev), Leaf(e), L0[i]);
    forall k | OnPath(hf(k), L0[i])
      ensures Find(H0[i := m], i, lev, k, hf(k)) == if k == e.key then Some(e.value) else Find(H0, i, lev, k, hf(k))
    {
      NoBitKey(H0, L0, hf, i, lev, e, m, k);
    }
  }

  lemma NoBitKey<V>(H0: Heap<V>, L0: Labels<V>, hf: Key -> bv64, i: INode<V>, lev: nat, e: Entry<V>, m: Main<V>, k: Key)
    requires HeapOK(H0, L0, hf) && i in H0 && lev == 6 * |L0[i]| && EntryOK(hf, e, L0[i])
    requires SplicedIn(m, H0[i], Chunk(e.hash, lev), Leaf(e)) && OnPath(hf(k), L0[i])
    ensures Find(H0[i := m], i, lev, k, hf(k)) == if k == e.key then Some(e.value) else Find(H0, i, lev, k, hf(k))
  {
    var n, c, d := H0[i], Chunk(e.hash, lev), Chunk(hf(k), lev);
    assert NodeOK(H0, L0, hf, i);
    if d == c {
      SpliceCount(m, n, c, Leaf(e));
      NoBitSame(H0, i, lev, e, m, k, hf(k));
    } else {
      SpliceOther(m, n, c, Leaf(e), d);
      OtherChunk(hf, e, k, lev);
      OtherSlotKey(H0, L0, hf, i, lev, m, k);
    }
  }

  lemma NoBitSame<V>(H0: Heap<V>, i: INode<V>, lev: nat, e: Entry<V>, m: Main<V>, k: Key, h: bv64)
    requires i in H0 && lev < Exp2 && SplicedIn(m, H0[i], Chunk(e.hash, lev), Leaf(e))
    requires Has(m.bmp, Chunk(e.hash, lev)) && CountFrom(m.bmp, Chunk(e.hash, lev) as nat) < |m.arr|
    requires m.arr[CountFrom(m.bmp, Chunk(e.hash, lev) as nat)] == Leaf(e)
    requires Chunk(e.hash, lev) == Chunk(h, lev)
    ensures Find(H0[i := m], i, lev, k, h) == if k == e.key then Some(e.value) else Find(H0, i, lev, k, h)
  {
    PathLeaf(H0[i := m], i, lev, h, e);
    PathNoBit(H0, i, lev, h);
  }

  // -----------------------------------------------------------------------
  // Replacing the leaf or branch at one slot
  // -----------------------------------------------------------------------

  /** `m` is C-node `n` with the branch at chunk `c` replaced by `b`. */
  ghost predicate SwappedAt<V>(m: Main<V>, n: Main<V>, c: bv6, b: Branch<V>)
  {
    n.CNode? && m.CNode? && Has(n.bmp, c) && m.bmp == n.bmp &&
    CountFrom(n.bmp, c as nat) < |n.arr| && m.arr == n.arr[CountFrom(n.bmp, c as nat) := b]
  }

  lemma SwapSlots<V>(m: Main<V>, n: Main<V>, c: bv6, b: Branch<V>, d: bv6)
    requires SwappedAt(m, n, c, b)
    requires forall e: bv6 :: Has(n.bmp, e) ==> CountFrom(n.bmp, e as nat) < |n.arr|
    ensures d != c ==> SlotSame(m, n, d)
  {
    if d != c && Has(n.bmp, d) {
      if d < c {
        PosOrder(n.bmp, d, c);
      } else {
        PosOrder(n.bmp, c, d);
      }
    }
  }

  /** A C-node with one slot swapped for a well-placed branch stays well placed. */
  lemma SwapOK<V>(L0: Labels<V>, hf: Key -> bv64, m: Main<V>, n: Main<V>, c: bv6, b: Branch<V>, lab: Label)
    requires MainOK(L0, hf, n, lab) && SwappedAt(m, n, c, b) && BranchOK(L0, hf, b, lab + [c])
    ensures MainOK(L0, hf, m, lab)
  {
    forall d: bv6 | Has(m.bmp, d)
      ensures CountFrom(m.bmp, d as nat) < |m.arr| && BranchOK(L0, hf, m.arr[CountFrom(m.bmp, d as nat)], lab + [d])
    {
      SwapSlots(m, n, c, b, d);
    }
  }

  /**
   * branchsnode, equal keys: replacing the leaf holding e's key with a leaf
   * for `e` binds the key to e's value and leaves every other key as it was.
   */
  lemma UpdateLeafStep<V>(H0: Heap<V>, L0: Labels<V>, hf: Key -> bv64, i: INode<V>, lev: nat, e: Entry<V>, m: Main<V>)
    requires HeapOK(H0, L0, hf) && i in H0 && lev == 6 * |L0[i]| && EntryOK(hf, e, L0[i])
    requires SwappedAt(m, H0[i], Chunk(e.hash, lev), Leaf(e))
    requires H0[i].arr[CountFrom(H0[i].bmp, Chunk(e.hash, lev) as nat)].Leaf?
    requires H0[i].arr[CountFrom(H0[i].bmp, Chunk(e.hash, lev) as nat)].e.key == e.key
    ensures MainOK(L0, hf, m, L0[i])
    ensures forall k :: OnPath(hf(k), L0[i]) ==>
      Find(H0[i := m], i, lev, k, hf(k)) == if k == e.key then Some(e.value) else Find(H0, i, lev, k, hf(k))
  {
    var n, c, lab := H0[i], Chunk(e.hash, lev), L0[i];
    assert NodeOK(H0, L0, hf, i);
    OnPathExtend(e.hash, lab);
    SwapOK(L0, hf, m, n, c, Leaf(e), lab);
    forall k | OnPath(hf(k), lab)
      ensures Find(H0[i := m], i, lev, k, hf(k)) == if k == e.key then Some(e.value) else Find(H0, i, lev, k, hf(k))
    {
      UpdateLeafKey(H0, L0, hf, i, lev, e, m, k);
    }
  }

  lemma UpdateLeafKey<V>(H0: Heap<V>, L0: Labels<V>, hf: Key -> bv64, i: INode<V>, lev: nat, e: Entry<V>, m: Main<V>, k: Key)
    requires HeapOK(H0, L0, hf) && i in H0 && lev == 6 * |L0[i]| && EntryOK(hf, e, L0[i])
    requires SwappedAt(m, H0[i], Chunk(e.hash, lev), Leaf(e)) && OnPath(hf(k), L0[i])
    requires H0[i].arr[CountFrom(H0[i].bmp, Chunk(e.hash, lev) as nat)].Leaf?
    requires H0[i].arr[CountFrom(H0[i].bmp, Chunk(e.hash, lev) as nat)].e.key == e.key
    ensures Find(H0[i := m], i, lev, k, hf(k)) == if k == e.key then Some(e.value) else Find(H0, i, lev, k, hf(k))
  {
    var n, c, d := H0[i], Chunk(e.hash, lev), Chunk(hf(k), lev);
    assert NodeOK(H0, L0, hf, i);
    if d != c {
      SwapSlots(m, n, c, Leaf(e), d);
      OtherChunk(hf, e, k, lev);
      OtherSlotKey(H0, L0, hf, i, lev, m, k);
    } else {
      UpdateLeafSame(H0, i, lev, e, m, k, hf(k));
    }
  }

  lemma UpdateLeafSame<V>(H0: Heap<V>, i: INode<V>, lev: nat, e: Entry<V>, m: Main<V>, k: Key, h: bv64)
    requires i in H0 && lev < Exp2 && SwappedAt(m, H0[i], Chunk(e.hash, lev), Leaf(e))
    requires H0[i].arr[CountFrom(H0[i].bmp, Chunk(e.hash, lev) as nat)].Leaf?
    requires H0[i].arr[CountFrom(H0[i].bmp, Chunk(e.hash, lev) as nat)].e.key == e.key
    requires Chunk(e.hash, lev) == Chunk(h, lev)
    ensures Find(H0[i := m], i, lev, k, h) == if k == e.key then Some(e.value) else Find(H0, i, lev, k, h)
  {
    var n := H0[i];
    var p := CountFrom(n.bmp, Chunk(e.hash, lev) as nat);
    PathLeaf(H0[i := m], i, lev, h, e);
    PathLeaf(H0, i, lev, h, n.arr[p].e);
  }

  /** A key whose chunk selects a kept slot finds what it found before. */
  lemma OtherSlotKey<V>(H0: Heap<V>, L0: Labels<V>, hf: Key -> bv64, i: INode<V>, lev: nat, m: Main<V>, k: Key)
    requires HeapOK(H0, L0, hf) && i in H0 && lev == 6 * |L0[i]| && OnPath(hf(k), L0[i])
    requires H0[i].CNode? && m.CNode? && SlotSame(m, H0[i], Chunk(hf(k), lev))
    ensures Find(H0[i := m], i, lev, k, hf(k)) == Find(H0, i, lev, k, hf(k))
    ensures Shadow(H0[i := m], i, lev, k, hf(k)) == Shadow(H0, i, lev, k, hf(k))
  {
    SlotKept(H0, H0[i := m], L0, hf, i, lev, hf(k), m);
    OutcomeFind(Last(PathOf(H0[i := m], i, lev, hf(k))), Last(PathOf(H0, i, lev, hf(k))), k);
  }

  // -----------------------------------------------------------------------
  // Collision lists
  // -----------------------------------------------------------------------

  /** lNode insertion binds e's key to e's value (newest first) and keeps the rest. */
  lemma LInsertStep<V>(H0: Heap<V>, L0: Labels<V>, hf: Key -> bv64, i: INode<V>, lev: nat, e: Entry<V>)
    requires HeapOK(H0, L0, hf) && i in H0 && H0[i].LNode? && EntryOK(hf, e, L0[i])
    ensures MainOK(L0, hf, LNode(LInserted(H0[i].l, e)), L0[i])
    ensures forall k ::
      Find(H0[i := LNode(LInserted(H0[i].l, e))], i, lev, k, hf(k)) ==
        if k == e.key then Some(e.value) else Find(H0, i, lev, k, hf(k))
  {
    var l := H0[i].l;
    assert NodeOK(H0, L0, hf, i);
    var r := LInserted(l, e);
    assert forall j :: 1 <= j < |Lists.Elems(r)| ==> Lists.Elems(r)[j] == Lists.Elems(l)[j - 1];
  }
}
