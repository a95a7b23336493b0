/**
 * The abstract view of a trie heap: which key-value pairs the I-nodes
 * reachable from a node hold, read along the path a hash code selects.
 *
 * A heap snapshot `H` maps every I-node to its main node, and `L` maps it to
 * its label: the hash chunks of the positions above it, one per level, so a
 * node's level is six times the length of its label.
 */
module View {
  import opened Bits
  import opened Lists
  import opened Wrappers
  import opened Node

  type Label = seq<bv6>
  type Heap<V> = map<INode<V>, Main<V>>
  type Labels<V> = map<INode<V>, Label>

  /** Heap `A` with the entries of `B` added over it. */
  ghost function Plus<V>(A: Heap<V>, B: Heap<V>): (r: Heap<V>)
    ensures r.Keys == A.Keys + B.Keys
    ensures forall x :: x in B ==> r[x] == B[x]
    ensures forall x :: x in A && x !in B ==> r[x] == A[x]
  {
    A + B
  }

  /** The chunks of hash `h` at the levels of `lab` are `lab`. */
  ghost predicate OnPath(h: bv64, lab: Label)
  {
    forall j :: 0 <= j < |lab| ==> lab[j] == Chunk(h, 6 * j)
  }

  /** An entry lies under `lab`: its hash is its key's and follows the label. */
  ghost predicate EntryOK<V>(hf: Key -> bv64, e: Entry<V>, lab: Label)
  {
    e.hash == hf(e.key) && OnPath(e.hash, lab)
  }

  ghost predicate BranchOK<V>(L: Labels<V>, hf: Key -> bv64, b: Branch<V>, lab: Label)
  {
    match b
    case Leaf(e) => EntryOK(hf, e, lab)
    case Ind(j) => j in L && L[j] == lab
  }

  /**
   * A main node is well placed at `lab`: C-nodes only above level 64, with
   * one branch per bitmap bit placed at the bit's position and labelled by
   * the bit's chunk; tombs never at the root; collision lists only at
   * level 66, once the hash is used up; every entry under the label.
   */
  ghost predicate MainOK<V>(L: Labels<V>, hf: Key -> bv64, m: Main<V>, lab: Label)
  {
    |lab| <= 11 &&
    match m
    case CNode(bmp, arr, _) =>
      |lab| <= 10 && |arr| == PopCount(bmp) &&
      forall c: bv6 :: Has(bmp, c) ==>
        CountFrom(bmp, c as nat) < |arr| && BranchOK(L, hf, arr[CountFrom(bmp, c as nat)], lab + [c])
    case TNode(e) => 0 < |lab| && EntryOK(hf, e, lab)
    case LNode(l) => |lab| == 11 && forall j :: 0 <= j < |Elems(l)| ==> EntryOK(hf, Elems(l)[j], lab)
  }

  /** I-node `x` of the heap holds a well-placed main node. */
  ghost predicate NodeOK<V>(H: Heap<V>, L: Labels<V>, hf: Key -> bv64, x: INode<V>)
  {
    x in H && x in L && MainOK(L, hf, H[x], L[x])
  }

  /**
   * Every I-node of the heap is labelled and well placed. The trigger keeps
   * the per-node facts out of a proof until it names the node it needs.
   */
  ghost predicate HeapOK<V>(H: Heap<V>, L: Labels<V>, hf: Key -> bv64)
  {
    H.Keys == L.Keys && forall x {:trigger NodeOK(H, L, hf, x)} :: x in H ==> NodeOK(H, L, hf, x)
  }

  /** What a C-node holds at the chunk a hash selects. */
  datatype Slot<V> = NoBit | LeafSlot(e: Entry<V>) | Down

  /** One node on the path of a hash, with node identities abstracted away. */
  datatype Step<V> = CStep(width: nat, slot: Slot<V>) | TStep(e: Entry<V>) | LStep(l: List<Entry<V>>) | Broken

  /** The nodes visited from `i` at level `lev` following hash `h`. */
  ghost function PathOf<V>(H: Heap<V>, i: INode<V>, lev: nat, h: bv64): (p: seq<Step<V>>)
    ensures |p| > 0
    decreases if lev < Exp2 then Exp2 - lev else 0
  {
    if i !in H then [Broken]
    else match H[i]
      case CNode(bmp, arr, _) =>
        if lev >= Exp2 then [Broken]
        else
          var c := Chunk(h, lev);
          if !Has(bmp, c) then [CStep(|arr|, NoBit)]
          else
            var p := CountFrom(bmp, c as nat);
            if p >= |arr| then [Broken]
            else (match arr[p]
              case Leaf(e) => [CStep(|arr|, LeafSlot(e))]
              case Ind(j) => [CStep(|arr|, Down)] + PathOf(H, j, lev + W, h))
      case TNode(e) => [TStep(e)]
      case LNode(l) => [LStep(l)]
  }

  function Last<T>(s: seq<T>): T
    requires |s| > 0
  {
    s[|s| - 1]
  }

  /** The value for `k` where a path ends. A tomb still holds its entry. */
  function FindStep<V>(s: Step<V>, k: Key): Option<V>
  {
    match s
    case CStep(_, LeafSlot(e)) => if e.key == k then Some(e.value) else None
    case TStep(e) => if e.key == k then Some(e.value) else None
    case LStep(l) => LLookup(l, k)
    case _ => None
  }

  /** The value for `k` after removing `k` once where a path ends: only a collision list keeps an older duplicate. */
  function ShadowStep<V>(s: Step<V>, k: Key): Option<V>
  {
    match s
    case LStep(l) => LLookup(LRemoved(l, k), k)
    case _ => None
  }

  /** The value of key `k` (hash `h`) below I-node `i` at level `lev`. */
  ghost function Find<V>(H: Heap<V>, i: INode<V>, lev: nat, k: Key, h: bv64): Option<V>
  {
    FindStep(Last(PathOf(H, i, lev, h)), k)
  }

  /** What `k` maps to below `i` once one binding of `k` is removed. */
  ghost function Shadow<V>(H: Heap<V>, i: INode<V>, lev: nat, k: Key, h: bv64): Option<V>
  {
    ShadowStep(Last(PathOf(H, i, lev, h)), k)
  }

  /** 0 when the path of `h` has no tomb, else the number of nodes down to the tomb. */
  ghost function Tomb<V>(H: Heap<V>, i: INode<V>, lev: nat, h: bv64): nat
  {
    var p := PathOf(H, i, lev, h);
    if Last(p).TStep? then |p| else 0
  }

  /**
   * The path of `h` ends in a tomb and every C-node above it has a single
   * branch: cleaning with a contraction level above zero then turns each of
   * them, up to the first, into a tomb in turn.
   */
  ghost predicate Collapses<V>(H: Heap<V>, i: INode<V>, lev: nat, h: bv64)
  {
    var p := PathOf(H, i, lev, h);
    Last(p).TStep? && forall j :: 0 <= j < |p| - 1 ==> p[j].CStep? && p[j].width == 1
  }

  // -----------------------------------------------------------------------
  // Labels
  // -----------------------------------------------------------------------

  lemma OnPathExtend(h: bv64, lab: Label)
    requires OnPath(h, lab)
    ensures OnPath(h, lab + [Chunk(h, 6 * |lab|)])
  {
  }

  lemma OnPathPrefix(h: bv64, lab: Label, n: nat)
    requires OnPath(h, lab) && n <= |lab|
    ensures OnPath(h, lab[..n])
  {
  }

  lemma OffPathExtend(h: bv64, lab: Label, c: bv6)
    requires !OnPath(h, lab)
    ensures !OnPath(h, lab + [c])
  {
  }

  /** A label on the path of `h` does not extend a label that leaves that path. */
  lemma NotUnder(h: bv64, lab: Label, c: bv6, lab2: Label)
    requires OnPath(h, lab2) && |lab| <= |lab2| && Chunk(h, 6 * |lab|) != c
    ensures !(lab + [c] <= lab2)
  {
    if |lab| < |lab2| {
      assert lab2[|lab|] == Chunk(h, 6 * |lab|);
    }
  }

  ghost predicate LabelsKept<V>(L0: Labels<V>, L1: Labels<V>)
  {
    forall x :: x in L0 ==> x in L1 && L1[x] == L0[x]
  }

  /** Nodes whose labels do not extend `lab` keep their main nodes. */
  ghost predicate Unchanged<V>(H0: Heap<V>, H1: Heap<V>, L0: Labels<V>, lab: Label)
  {
    forall x :: x in H0 && x in L0 && !(lab <= L0[x]) ==> x in H1 && H1[x] == H0[x]
  }

  /** Nodes on the path of `h` at depth `n` or below keep their main nodes. */
  ghost predicate Agree<V>(H0: Heap<V>, H1: Heap<V>, L0: Labels<V>, h: bv64, n: nat)
  {
    forall x :: x in H0 && x in L0 && n <= |L0[x]| && OnPath(h, L0[x]) ==> x in H1 && H1[x] == H0[x]
  }

  lemma MainOKMono<V>(L0: Labels<V>, L1: Labels<V>, hf: Key -> bv64, m: Main<V>, lab: Label)
    requires LabelsKept(L0, L1) && MainOK(L0, hf, m, lab)
    ensures MainOK(L1, hf, m, lab)
  {
    if m.CNode? {
      forall c: bv6 | Has(m.bmp, c)
        ensures CountFrom(m.bmp, c as nat) < |m.arr| && BranchOK(L1, hf, m.arr[CountFrom(m.bmp, c as nat)], lab + [c])
      {
      }
    }
  }

  /** A heap stays well formed when every changed or new node is well placed. */
  lemma HeapStep<V>(H0: Heap<V>, L0: Labels<V>, H1: Heap<V>, L1: Labels<V>, hf: Key -> bv64)
    requires HeapOK(H0, L0, hf) && LabelsKept(L0, L1) && H1.Keys == L1.Keys
    requires forall x :: x in H1 ==> (x in H0 && H1[x] == H0[x]) || MainOK(L1, hf, H1[x], L1[x])
    ensures HeapOK(H1, L1, hf)
  {
    forall x | x in H1
      ensures NodeOK(H1, L1, hf, x)
    {
      if x in H0 && H1[x] == H0[x] {
        assert NodeOK(H0, L0, hf, x);
        MainOKMono(L0, L1, hf, H0[x], L0[x]);
      }
    }
  }

  /** C-nodes sit above the last level and hold one branch per bitmap bit. */
  lemma CNodeDepth<V>(H: Heap<V>, L: Labels<V>, hf: Key -> bv64, i: INode<V>)
    requires HeapOK(H, L, hf) && i in H && H[i].CNode?
    ensures |L[i]| <= 10 && |H[i].arr| == PopCount(H[i].bmp)
  {
    assert NodeOK(H, L, hf, i);
  }

  /** Every I-node branch of a well-placed C-node, at any array position, is in the heap. */
  lemma BranchesIn<V>(H: Heap<V>, L: Labels<V>, hf: Key -> bv64, i: INode<V>)
    requires HeapOK(H, L, hf) && i in H && H[i].CNode?
    ensures forall j :: 0 <= j < |H[i].arr| && H[i].arr[j].Ind? ==> H[i].arr[j].i in H
  {
    CNodeDepth(H, L, hf, i);
    forall j | 0 <= j < |H[i].arr| && H[i].arr[j].Ind?
      ensures H[i].arr[j].i in H
    {
      var c := BitAt(H[i].bmp, j);
      BranchAt(H, L, hf, i, c);
    }
  }

  /** An entry placed under a label off the path of `k`'s hash is not `k`'s. */
  lemma EntryOff<V>(hf: Key -> bv64, e: Entry<V>, lab: Label, k: Key)
    requires EntryOK(hf, e, lab) && !OnPath(hf(k), lab)
    ensures e.key != k
  {
  }

  /** The branch a well-placed C-node holds under a set bit lies in its array and is labelled by the bit's chunk. */
  lemma BranchAt<V>(H: Heap<V>, L: Labels<V>, hf: Key -> bv64, i: INode<V>, c: bv6)
    requires HeapOK(H, L, hf) && i in H && H[i].CNode? && Has(H[i].bmp, c)
    ensures |L[i]| <= 10
    ensures CountFrom(H[i].bmp, c as nat) < |H[i].arr|
    ensures BranchOK(L, hf, H[i].arr[CountFrom(H[i].bmp, c as nat)], L[i] + [c])
  {
    assert NodeOK(H, L, hf, i);
  }

  // -----------------------------------------------------------------------
  // Paths
  // -----------------------------------------------------------------------

  /** A path only depends on the nodes along it. */
  lemma {:induction false} PathFrame<V>(H0: Heap<V>, H1: Heap<V>, L0: Labels<V>, hf: Key -> bv64,
                                        i: INode<V>, lev: nat, h: bv64)
    requires HeapOK(H0, L0, hf) && i in H0 && lev == 6 * |L0[i]| && OnPath(h, L0[i])
    requires Agree(H0, H1, L0, h, |L0[i]|)
    ensures PathOf(H1, i, lev, h) == PathOf(H0, i, lev, h)
    decreases if lev < Exp2 then Exp2 - lev else 0
  {
    assert i in H1 && H1[i] == H0[i];
    if H0[i].CNode? {
      CNodeDepth(H0, L0, hf, i);
      var c := Chunk(h, lev);
      if Has(H0[i].bmp, c) {
        BranchAt(H0, L0, hf, i, c);
        var p := CountFrom(H0[i].bmp, c as nat);
        if H0[i].arr[p].Ind? {
          var j := H0[i].arr[p].i;
          OnPathExtend(h, L0[i]);
          PathFrame(H0, H1, L0, hf, j, lev + W, h);
          SameStepDown(H0, H1, i, j, lev, h);
        } else {
          SameStepLeaf(H0, H1, i, H0[i].arr[p].e, lev, h);
        }
      } else {
        SameStepNoBit(H0, H1, i, lev, h);
      }
    }
  }

  /** Two heaps with the same C-node at `i` and the same paths below its child have the same path from `i`. */
  lemma SameStepDown<V>(H0: Heap<V>, H1: Heap<V>, i: INode<V>, j: INode<V>, lev: nat, h: bv64)
    requires i in H0 && i in H1 && H1[i] == H0[i] && H0[i].CNode? && lev < Exp2
    requires Has(H0[i].bmp, Chunk(h, lev))
    requires CountFrom(H0[i].bmp, Chunk(h, lev) as nat) < |H0[i].arr|
    requires H0[i].arr[CountFrom(H0[i].bmp, Chunk(h, lev) as nat)] == Ind(j)
    requires PathOf(H1, j, lev + W, h) == PathOf(H0, j, lev + W, h)
    ensures PathOf(H1, i, lev, h) == PathOf(H0, i, lev, h)
  {
    PathDown(H1, i, j, lev, h);
    PathDown(H0, i, j, lev, h);
  }

  /** Two heaps with the same C-node at `i`, holding a leaf at the hash's chunk, have the same path from `i`. */
  lemma SameStepLeaf<V>(H0: Heap<V>, H1: Heap<V>, i: INode<V>, e: Entry<V>, lev: nat, h: bv64)
    requires i in H0 && i in H1 && H1[i] == H0[i] && H0[i].CNode? && lev < Exp2
    requires Has(H0[i].bmp, Chunk(h, lev))
    requires CountFrom(H0[i].bmp, Chunk(h, lev) as nat) < |H0[i].arr|
    requires H0[i].arr[CountFrom(H0[i].bmp, Chunk(h, lev) as nat)] == Leaf(e)
    ensures PathOf(H1, i, lev, h) == PathOf(H0, i, lev, h)
  {
    PathLeaf(H1, i, lev, h, e);
    PathLeaf(H0, i, lev, h, e);
  }

  /** Two heaps with the same C-node at `i`, without the hash's chunk, have the same path from `i`. */
  lemma SameStepNoBit<V>(H0: Heap<V>, H1: Heap<V>, i: INode<V>, lev: nat, h: bv64)
    requires i in H0 && i in H1 && H1[i] == H0[i] && H0[i].CNode? && lev < Exp2
    requires !Has(H0[i].bmp, Chunk(h, lev))
    ensures PathOf(H1, i, lev, h) == PathOf(H0, i, lev, h)
  {
    PathNoBit(H1, i, lev, h);
    PathNoBit(H0, i, lev, h);
  }

  /** Two nodes with the same main node, all below them agreeing, have the same paths. */
  lemma SameMainPath<V>(H0: Heap<V>, H1: Heap<V>, L0: Labels<V>, hf: Key -> bv64,
                        a: INode<V>, b: INode<V>, lev: nat, h: bv64)
    requires HeapOK(H0, L0, hf) && b in H0 && a in H1 && H1[a] == H0[b]
    requires lev == 6 * |L0[b]| && OnPath(h, L0[b])
    requires Agree(H0, H1, L0, h, |L0[b]| + 1)
    ensures PathOf(H1, a, lev, h) == PathOf(H0, b, lev, h)
  {
    var m := H0[b];
    if m.CNode? && lev < Exp2 {
      var c := Chunk(h, lev);
      if Has(m.bmp, c) {
        BranchAt(H0, L0, hf, b, c);
        var p := CountFrom(m.bmp, c as nat);
        if m.arr[p].Ind? {
          var j := m.arr[p].i;
          OnPathExtend(h, L0[b]);
          PathFrame(H0, H1, L0, hf, j, lev + W, h);
          PathDown(H1, a, j, lev, h);
          PathDown(H0, b, j, lev, h);
        }
      }
    }
  }

  /** Through a C-node's I-node branch, a path continues with the child's path. */
  lemma PathDown<V>(H: Heap<V>, p: INode<V>, i: INode<V>, lev: nat, h: bv64)
    requires p in H && H[p].CNode? && lev < Exp2
    requires Has(H[p].bmp, Chunk(h, lev))
    requires CountFrom(H[p].bmp, Chunk(h, lev) as nat) < |H[p].arr|
    requires H[p].arr[CountFrom(H[p].bmp, Chunk(h, lev) as nat)] == Ind(i)
    ensures PathOf(H, p, lev, h) == [CStep(|H[p].arr|, Down)] + PathOf(H, i, lev + W, h)
    ensures Last(PathOf(H, p, lev, h)) == Last(PathOf(H, i, lev + W, h))
  {
  }

  /** At a C-node whose branch at the hash's chunk is a leaf, the path stops at that leaf. */
  lemma PathLeaf<V>(H: Heap<V>, p: INode<V>, lev: nat, h: bv64, e: Entry<V>)
    requires p in H && H[p].CNode? && lev < Exp2
    requires Has(H[p].bmp, Chunk(h, lev))
    requires CountFrom(H[p].bmp, Chunk(h, lev) as nat) < |H[p].arr|
    requires H[p].arr[CountFrom(H[p].bmp, Chunk(h, lev) as nat)] == Leaf(e)
    ensures PathOf(H, p, lev, h) == [CStep(|H[p].arr|, LeafSlot(e))]
  {
  }

  /** At a C-node without the hash's chunk, the path stops there. */
  lemma PathNoBit<V>(H: Heap<V>, p: INode<V>, lev: nat, h: bv64)
    requires p in H && H[p].CNode? && lev < Exp2 && !Has(H[p].bmp, Chunk(h, lev))
    ensures PathOf(H, p, lev, h) == [CStep(|H[p].arr|, NoBit)]
  {
  }

  /** Off the label's path nothing is found: every entry below lies on it. */
  lemma {:induction false} OffPath<V>(H: Heap<V>, L: Labels<V>, hf: Key -> bv64, i: INode<V>, lev: nat, k: Key)
    requires HeapOK(H, L, hf) && i in H && lev == 6 * |L[i]| && !OnPath(hf(k), L[i])
    ensures Find(H, i, lev, k, hf(k)) == None
    decreases if lev < Exp2 then Exp2 - lev else 0
  {
    var m := H[i];
    assert NodeOK(H, L, hf, i);
    if m.CNode? {
      var down, j := OffPathDown(H, L, hf, i, lev, k);
      if down {
        OffPath(H, L, hf, j, lev + W, k);
      }
    } else if m.LNode? {
      FirstValueNone(Elems(m.l), k);
    }
  }

  /** One level of `OffPath`: a C-node either finds nothing or passes the search to a child off the path too. */
  lemma OffPathDown<V>(H: Heap<V>, L: Labels<V>, hf: Key -> bv64, i: INode<V>, lev: nat, k: Key)
    returns (down: bool, j: INode<V>)
    requires HeapOK(H, L, hf) && i in H && H[i].CNode? && lev == 6 * |L[i]| && !OnPath(hf(k), L[i])
    ensures !down ==> Find(H, i, lev, k, hf(k)) == None
    ensures down ==> (j in H && L[j] == L[i] + [Chunk(hf(k), lev)] && !OnPath(hf(k), L[j]) &&
                      Find(H, i, lev, k, hf(k)) == Find(H, j, lev + W, k, hf(k)))
  {
    CNodeDepth(H, L, hf, i);
    var c := Chunk(hf(k), lev);
    if !Has(H[i].bmp, c) {
      PathNoBit(H, i, lev, hf(k));
      return false, i;
    }
    SlotIn(H, L, hf, i, c);
    var b := H[i].arr[CountFrom(H[i].bmp, c as nat)];
    if b.Leaf? {
      OffLeaf(H, L, hf, i, lev, k, b.e);
      return false, i;
    }
    OffInd(H, L, hf, i, lev, k, b.i);
    return true, b.i;
  }

  /** The slot a set bit of a well-placed C-node selects lies in its array. */
  lemma SlotIn<V>(H: Heap<V>, L: Labels<V>, hf: Key -> bv64, i: INode<V>, c: bv6)
    requires HeapOK(H, L, hf) && i in H && H[i].CNode? && Has(H[i].bmp, c)
    ensures CountFrom(H[i].bmp, c as nat) < |H[i].arr|
  {
    BranchAt(H, L, hf, i, c);
  }

  /** An I-node under the chunk of a key off the label's path is off it too, and the search goes on there. */
  lemma OffInd<V>(H: Heap<V>, L: Labels<V>, hf: Key -> bv64, i: INode<V>, lev: nat, k: Key, j: INode<V>)
    requires HeapOK(H, L, hf) && i in H && H[i].CNode? && lev == 6 * |L[i]| && lev < Exp2 && !OnPath(hf(k), L[i])
    requires Has(H[i].bmp, Chunk(hf(k), lev))
    requires CountFrom(H[i].bmp, Chunk(hf(k), lev) as nat) < |H[i].arr|
    requires H[i].arr[CountFrom(H[i].bmp, Chunk(hf(k), lev) as nat)] == Ind(j)
    ensures j in H && L[j] == L[i] + [Chunk(hf(k), lev)] && !OnPath(hf(k), L[j])
    ensures Find(H, i, lev, k, hf(k)) == Find(H, j, lev + W, k, hf(k))
  {
    BranchAt(H, L, hf, i, Chunk(hf(k), lev));
    OffPathExtend(hf(k), L[i], Chunk(hf(k), lev));
    PathDown(H, i, j, lev, hf(k));
  }

  /** A leaf under the chunk of a key off the label's path holds another key: nothing is found. */
  lemma OffLeaf<V>(H: Heap<V>, L: Labels<V>, hf: Key -> bv64, i: INode<V>, lev: nat, k: Key, e: Entry<V>)
    requires HeapOK(H, L, hf) && i in H && H[i].CNode? && lev < Exp2 && !OnPath(hf(k), L[i])
    requires Has(H[i].bmp, Chunk(hf(k), lev))
    requires CountFrom(H[i].bmp, Chunk(hf(k), lev) as nat) < |H[i].arr|
    requires H[i].arr[CountFrom(H[i].bmp, Chunk(hf(k), lev) as nat)] == Leaf(e)
    ensures Find(H, i, lev, k, hf(k)) == None
  {
    BranchAt(H, L, hf, i, Chunk(hf(k), lev));
    OffPathExtend(hf(k), L[i], Chunk(hf(k), lev));
    EntryOff(hf, e, L[i] + [Chunk(hf(k), lev)], k);
    PathLeaf(H, i, lev, hf(k), e);
  }

  /** Where nothing is found for `k`, nothing is left after removing `k` either. */
  lemma ShadowOfNone<V>(s: Step<V>, k: Key)
    requires FindStep(s, k) == None
    ensures ShadowStep(s, k) == None
  {
    if s.LStep? {
      LRemovedAbsent(s.l, k);
    }
  }

  // -----------------------------------------------------------------------
  // Relating two heaps below a node
  // -----------------------------------------------------------------------

  /** Below `x`, `key` now maps to `nv` and every other key as before. */
  ghost predicate Rel<V>(H0: Heap<V>, H1: Heap<V>, x: INode<V>, lev: nat, hf: Key -> bv64, key: Key, nv: Option<V>)
  {
    forall k :: Find(H1, x, lev, k, hf(k)) == if k == key then nv else Find(H0, x, lev, k, hf(k))
  }

  /** Below `x`, every key maps as before, and so would after one removal. */
  ghost predicate Same<V>(H0: Heap<V>, H1: Heap<V>, x: INode<V>, lev: nat, hf: Key -> bv64)
  {
    forall k :: Find(H1, x, lev, k, hf(k)) == Find(H0, x, lev, k, hf(k)) &&
                Shadow(H1, x, lev, k, hf(k)) == Shadow(H0, x, lev, k, hf(k))
  }

  /** Every path from `x` that a hash under its label can take is unchanged. */
  ghost predicate SamePaths<V>(H0: Heap<V>, H1: Heap<V>, L0: Labels<V>, x: INode<V>, lev: nat)
    requires x in L0
  {
    forall h :: OnPath(h, L0[x]) ==> PathOf(H1, x, lev, h) == PathOf(H0, x, lev, h)
  }

  /** The branch of C-node `p` at chunk `c` is I-node `i`. */
  ghost predicate ChildAt<V>(H: Heap<V>, p: INode<V>, c: bv6, i: INode<V>)
  {
    p in H && H[p].CNode? && Has(H[p].bmp, c) &&
    CountFrom(H[p].bmp, c as nat) < |H[p].arr| && H[p].arr[CountFrom(H[p].bmp, c as nat)] == Ind(i)
  }

  /**
   * When only nodes under child `i` (at chunk `c`) of `p` change, a path
   * from `p` either enters `i` or is unchanged.
   */
  lemma LiftKey<V>(H0: Heap<V>, H1: Heap<V>, L0: Labels<V>, hf: Key -> bv64,
                   p: INode<V>, i: INode<V>, levp: nat, c: bv6, h: bv64)
    requires HeapOK(H0, L0, hf) && ChildAt(H0, p, c, i) && levp == 6 * |L0[p]| && OnPath(h, L0[p])
    requires Unchanged(H0, H1, L0, L0[p] + [c])
    ensures p in H1 && H1[p] == H0[p]
    ensures Chunk(h, levp) == c ==>
      PathOf(H1, p, levp, h) == [CStep(|H0[p].arr|, Down)] + PathOf(H1, i, levp + W, h) &&
      PathOf(H0, p, levp, h) == [CStep(|H0[p].arr|, Down)] + PathOf(H0, i, levp + W, h)
    ensures Chunk(h, levp) != c ==> PathOf(H1, p, levp, h) == PathOf(H0, p, levp, h)
  {
    assert !(L0[p] + [c] <= L0[p]);
    assert NodeOK(H0, L0, hf, p);
    if Chunk(h, levp) == c {
      PathDown(H0, p, i, levp, h);
      PathDown(H1, p, i, levp, h);
    } else {
      forall x | x in H0 && x in L0 && |L0[p]| <= |L0[x]| && OnPath(h, L0[x])
        ensures x in H1 && H1[x] == H0[x]
      {
        NotUnder(h, L0[p], c, L0[x]);
      }
      PathFrame(H0, H1, L0, hf, p, levp, h);
    }
  }

  /** The value of any key below `p`: through child `i` when its chunk is `c`, else as before. */
  lemma FindLift<V>(H0: Heap<V>, H1: Heap<V>, L0: Labels<V>, L1: Labels<V>, hf: Key -> bv64,
                    p: INode<V>, i: INode<V>, levp: nat, c: bv6, k: Key)
    requires HeapOK(H0, L0, hf) && HeapOK(H1, L1, hf) && LabelsKept(L0, L1)
    requires ChildAt(H0, p, c, i) && levp == 6 * |L0[p]| && Unchanged(H0, H1, L0, L0[p] + [c])
    ensures OnPath(hf(k), L0[p]) && Chunk(hf(k), levp) == c ==>
      Last(PathOf(H1, p, levp, hf(k))) == Last(PathOf(H1, i, levp + W, hf(k))) &&
      Last(PathOf(H0, p, levp, hf(k))) == Last(PathOf(H0, i, levp + W, hf(k)))
    ensures !(OnPath(hf(k), L0[p]) && Chunk(hf(k), levp) == c) ==>
      Find(H1, p, levp, k, hf(k)) == Find(H0, p, levp, k, hf(k)) &&
      Shadow(H1, p, levp, k, hf(k)) == Shadow(H0, p, levp, k, hf(k))
  {
    var h := hf(k);
    assert p in L0 && p in H1 && L1[p] == L0[p];
    if OnPath(h, L0[p]) {
      LiftKey(H0, H1, L0, hf, p, i, levp, c, h);
      if Chunk(h, levp) == c {
        ConsDown(|H0[p].arr|, PathOf(H0, i, levp + W, h));
        ConsDown(|H0[p].arr|, PathOf(H1, i, levp + W, h));
      }
    } else {
      OffPath(H0, L0, hf, p, levp, k);
      OffPath(H1, L1, hf, p, levp, k);
      ShadowOfNone(Last(PathOf(H0, p, levp, h)), k);
      ShadowOfNone(Last(PathOf(H1, p, levp, h)), k);
    }
  }

  /** A change below child `i` that `Rel` describes is the same change below `p`. */
  lemma RelLift<V>(H0: Heap<V>, H1: Heap<V>, L0: Labels<V>, L1: Labels<V>, hf: Key -> bv64,
                   p: INode<V>, i: INode<V>, levp: nat, c: bv6, key: Key, nv: Option<V>)
    requires HeapOK(H0, L0, hf) && HeapOK(H1, L1, hf) && LabelsKept(L0, L1)
    requires ChildAt(H0, p, c, i) && levp == 6 * |L0[p]| && Unchanged(H0, H1, L0, L0[p] + [c])
    requires OnPath(hf(key), L0[p]) && Chunk(hf(key), levp) == c
    requires Rel(H0, H1, i, levp + W, hf, key, nv)
    ensures Rel(H0, H1, p, levp, hf, key, nv)
  {
    forall k
      ensures Find(H1, p, levp, k, hf(k)) == if k == key then nv else Find(H0, p, levp, k, hf(k))
    {
      FindLift(H0, H1, L0, L1, hf, p, i, levp, c, k);
    }
  }

  /** An unchanged view below child `i` is an unchanged view below `p`. */
  lemma SameLift<V>(H0: Heap<V>, H1: Heap<V>, L0: Labels<V>, L1: Labels<V>, hf: Key -> bv64,
                    p: INode<V>, i: INode<V>, levp: nat, c: bv6)
    requires HeapOK(H0, L0, hf) && HeapOK(H1, L1, hf) && LabelsKept(L0, L1)
    requires ChildAt(H0, p, c, i) && levp == 6 * |L0[p]| && Unchanged(H0, H1, L0, L0[p] + [c])
    requires Same(H0, H1, i, levp + W, hf)
    ensures Same(H0, H1, p, levp, hf)
  {
    forall k
      ensures Find(H1, p, levp, k, hf(k)) == Find(H0, p, levp, k, hf(k)) &&
              Shadow(H1, p, levp, k, hf(k)) == Shadow(H0, p, levp, k, hf(k))
    {
      FindLift(H0, H1, L0, L1, hf, p, i, levp, c, k);
    }
  }

  /** Entering a child through a C-node adds one level in front of the child's path. */
  lemma ConsDown<V>(w: nat, q: seq<Step<V>>)
    requires |q| > 0
    ensures var s := [CStep(w, Down)] + q;
      Last(s) == Last(q) &&
      (Last(s).TStep? ==> |s| == |q| + 1) &&
      ((Last(s).TStep? && forall j :: 0 <= j < |s| - 1 ==> s[j].CStep? && s[j].width == 1) <==>
       (w == 1 && Last(q).TStep? && forall j :: 0 <= j < |q| - 1 ==> q[j].CStep? && q[j].width == 1))
  {
    var s := [CStep(w, Down)] + q;
    assert s[0] == CStep(w, Down);
    assert forall j :: 1 <= j < |s| ==> s[j] == q[j - 1];
    if Last(s).TStep? && forall j :: 0 <= j < |s| - 1 ==> s[j].CStep? && s[j].width == 1 {
      forall j | 0 <= j < |q| - 1
        ensures q[j].CStep? && q[j].width == 1
      {
        assert s[j + 1] == q[j];
      }
    }
  }

  /** The tomb measure of the key's hash shrinks below `p` when it shrinks below its child `i`. */
  lemma TombLift<V>(H0: Heap<V>, H1: Heap<V>, L0: Labels<V>, hf: Key -> bv64,
                    p: INode<V>, i: INode<V>, levp: nat, c: bv6, h: bv64)
    requires HeapOK(H0, L0, hf) && ChildAt(H0, p, c, i) && levp == 6 * |L0[p]| && OnPath(h, L0[p])
    requires Unchanged(H0, H1, L0, L0[p] + [c]) && Chunk(h, levp) == c
    requires Tomb(H1, i, levp + W, h) < Tomb(H0, i, levp + W, h)
    ensures Tomb(H1, p, levp, h) < Tomb(H0, p, levp, h)
  {
    LiftKey(H0, H1, L0, hf, p, i, levp, c, h);
    ConsDown(|H0[p].arr|, PathOf(H0, i, levp + W, h));
    ConsDown(|H0[p].arr|, PathOf(H1, i, levp + W, h));
  }

  /** A collapse below `p` after the change was already one before, when that holds below `i`. */
  lemma CollapseLift<V>(H0: Heap<V>, H1: Heap<V>, L0: Labels<V>, hf: Key -> bv64,
                        p: INode<V>, i: INode<V>, levp: nat, c: bv6, h: bv64)
    requires HeapOK(H0, L0, hf) && ChildAt(H0, p, c, i) && levp == 6 * |L0[p]| && OnPath(h, L0[p])
    requires Unchanged(H0, H1, L0, L0[p] + [c]) && Chunk(h, levp) == c
    requires Collapses(H1, i, levp + W, h) ==> Collapses(H0, i, levp + W, h)
    ensures Collapses(H1, p, levp, h) ==> Collapses(H0, p, levp, h)
  {
    LiftKey(H0, H1, L0, hf, p, i, levp, c, h);
    ConsDown(|H0[p].arr|, PathOf(H0, i, levp + W, h));
    ConsDown(|H0[p].arr|, PathOf(H1, i, levp + W, h));
  }

  /** Unchanged paths below child `i` are unchanged paths below `p`. */
  lemma SamePathsLift<V>(H0: Heap<V>, H1: Heap<V>, L0: Labels<V>, hf: Key -> bv64,
                         p: INode<V>, i: INode<V>, levp: nat, c: bv6)
    requires HeapOK(H0, L0, hf) && ChildAt(H0, p, c, i) && levp == 6 * |L0[p]|
    requires Unchanged(H0, H1, L0, L0[p] + [c])
    requires i in L0 && SamePaths(H0, H1, L0, i, levp + W)
    ensures SamePaths(H0, H1, L0, p, levp)
  {
    assert NodeOK(H0, L0, hf, p);
    forall h | OnPath(h, L0[p])
      ensures PathOf(H1, p, levp, h) == PathOf(H0, p, levp, h)
    {
      LiftKey(H0, H1, L0, hf, p, i, levp, c, h);
      if Chunk(h, levp) == c {
        OnPathExtend(h, L0[p]);
      }
    }
  }

  /** Unchanged paths keep every lookup, every removal result and both measures. */
  lemma SamePathsSame<V>(H0: Heap<V>, H1: Heap<V>, L0: Labels<V>, L1: Labels<V>, hf: Key -> bv64,
                         x: INode<V>, lev: nat)
    requires HeapOK(H0, L0, hf) && HeapOK(H1, L1, hf) && LabelsKept(L0, L1)
    requires x in H0 && lev == 6 * |L0[x]| && SamePaths(H0, H1, L0, x, lev)
    ensures Same(H0, H1, x, lev, hf)
    ensures forall h :: OnPath(h, L0[x]) ==> Tomb(H1, x, lev, h) == Tomb(H0, x, lev, h)
    ensures forall h :: OnPath(h, L0[x]) ==> (Collapses(H1, x, lev, h) <==> Collapses(H0, x, lev, h))
  {
    forall k
      ensures Find(H1, x, lev, k, hf(k)) == Find(H0, x, lev, k, hf(k)) &&
              Shadow(H1, x, lev, k, hf(k)) == Shadow(H0, x, lev, k, hf(k))
    {
      if !OnPath(hf(k), L0[x]) {
        OffPath(H0, L0, hf, x, lev, k);
        OffPath(H1, L1, hf, x, lev, k);
        ShadowOfNone(Last(PathOf(H0, x, lev, hf(k))), k);
        ShadowOfNone(Last(PathOf(H1, x, lev, hf(k))), k);
      }
    }
  }

  // -----------------------------------------------------------------------
  // Composing changes
  // -----------------------------------------------------------------------

  lemma SameThenRel<V>(H0: Heap<V>, H1: Heap<V>, H2: Heap<V>, x: INode<V>, lev: nat, hf: Key -> bv64,
                       key: Key, nv: Option<V>)
    requires Same(H0, H1, x, lev, hf) && Rel(H1, H2, x, lev, hf, key, nv)
    ensures Rel(H0, H2, x, lev, hf, key, nv)
  {
  }

  lemma RelThenSame<V>(H0: Heap<V>, H1: Heap<V>, H2: Heap<V>, x: INode<V>, lev: nat, hf: Key -> bv64,
                       key: Key, nv: Option<V>)
    requires Rel(H0, H1, x, lev, hf, key, nv) && Same(H1, H2, x, lev, hf)
    ensures Rel(H0, H2, x, lev, hf, key, nv)
  {
  }

  lemma SameThenSame<V>(H0: Heap<V>, H1: Heap<V>, H2: Heap<V>, x: INode<V>, lev: nat, hf: Key -> bv64)
    requires Same(H0, H1, x, lev, hf) && Same(H1, H2, x, lev, hf)
    ensures Same(H0, H2, x, lev, hf)
  {
  }

  /** Changes confined below a label are confined below any shorter prefix of it. */
  lemma UnchangedWeaken<V>(H0: Heap<V>, H1: Heap<V>, L0: Labels<V>, lab: Label, lab': Label)
    requires Unchanged(H0, H1, L0, lab') && lab <= lab'
    ensures Unchanged(H0, H1, L0, lab)
  {
  }

  lemma UnchangedTrans<V>(H0: Heap<V>, H1: Heap<V>, H2: Heap<V>, L0: Labels<V>, L1: Labels<V>, lab: Label)
    requires Unchanged(H0, H1, L0, lab) && Unchanged(H1, H2, L1, lab) && LabelsKept(L0, L1)
    ensures Unchanged(H0, H2, L0, lab)
  {
  }
}
