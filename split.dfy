/**
 * How branchsnode's split changes the view: when the leaf at the new
 * entry's chunk holds another key, the leaf is replaced by a fresh I-node
 * whose main node newNode builds for both entries.
 */
module Split {
  import opened Bits
  import Lists
  import opened Wrappers
  import opened Node
  import opened View
  import opened Steps

  /** The labels of the I-nodes newNode built, the shape's top node standing at `lab`. */
  ghost function ShapeLabels<V>(made: map<INode<V>, Main<V>>, m: Main<V>, x: Entry<V>, xhc: bv64,
                                y: Entry<V>, yhc: bv64, lev: nat, gen: Generation?, lab: Label): (r: Labels<V>)
    requires SplitShape(made, m, x, xhc, y, yhc, lev, gen)
    ensures r.Keys == made.Keys
    decreases if lev < Exp2 then Exp2 - lev else 0
  {
    if lev < Exp2 && Chunk(xhc, lev) == Chunk(yhc, lev) then
      var j := m.arr[0].i;
      var below := ShapeLabels(made - {j}, made[j], x, xhc, y, yhc, lev + W, gen, lab + [Chunk(xhc, lev)]);
      below[j := lab + [Chunk(xhc, lev)]]
    else
      map[]
  }

  /** The two-leaf C-node: exactly the two chunks are present, each selecting its own leaf. */
  lemma PairSlot<V>(x: Entry<V>, cx: bv6, y: Entry<V>, cy: bv6, gen: Generation?, m: Main<V>, d: bv6)
    requires cx != cy && m == Pair(x, cx, y, cy, gen)
    ensures |m.arr| == 2 == PopCount(m.bmp) && (Has(m.bmp, d) <==> d == cx || d == cy)
    ensures d == cx ==> CountFrom(m.bmp, d as nat) < 2 && m.arr[CountFrom(m.bmp, d as nat)] == Leaf(x)
    ensures d == cy ==> CountFrom(m.bmp, d as nat) < 2 && m.arr[CountFrom(m.bmp, d as nat)] == Leaf(y)
  {
    var b := m.bmp;
    PairBitmap(cx, cy, b, d);
    if d == cx {
      PairLeftLeaf(x, cx, y, cy, gen, m, b, CountFrom(b, cx as nat));
    } else if d == cy {
      PairRightLeaf(x, cx, y, cy, gen, m, b, CountFrom(b, cy as nat));
    }
  }

  /** In the two-leaf C-node, x's chunk selects x's leaf. */
  lemma PairLeftLeaf<V>(x: Entry<V>, cx: bv6, y: Entry<V>, cy: bv6, gen: Generation?, m: Main<V>, b: bv64, p: nat)
    requires cx != cy && m == Pair(x, cx, y, cy, gen) && b == m.bmp && p == CountFrom(b, cx as nat)
    ensures p < 2 && m.arr[p] == Leaf(x)
  {
    PairBitmap(cx, cy, b, cx);
  }

  /** In the two-leaf C-node, y's chunk selects y's leaf. */
  lemma PairRightLeaf<V>(x: Entry<V>, cx: bv6, y: Entry<V>, cy: bv6, gen: Generation?, m: Main<V>, b: bv64, p: nat)
    requires cx != cy && m == Pair(x, cx, y, cy, gen) && b == m.bmp && p == CountFrom(b, cy as nat)
    ensures p < 2 && m.arr[p] == Leaf(y)
  {
    PairBitmap(cx, cy, b, cy);
  }

  /** The one-flag C-node: only its chunk is present, selecting its only branch. */
  lemma SingleSlot(c: bv6, d: bv6)
    ensures PopCount(Flag(c)) == 1 && (Has(Flag(c), d) <==> d == c) && CountFrom(Flag(c), c as nat) == 0
  {
    FlagSingle(c);
    HasFlag(c, d);
    FlagCount(c, c);
  }

  /** A one-branch C-node is well placed when its branch lies under its chunk. */
  lemma SingleOK<V>(L: Labels<V>, hf: Key -> bv64, m: Main<V>, c: bv6, lab: Label)
    requires m.CNode? && m.bmp == Flag(c) && |m.arr| == 1 && |lab| <= 10 && BranchOK(L, hf, m.arr[0], lab + [c])
    ensures MainOK(L, hf, m, lab)
  {
    SingleSlot(c, c);
    forall d: bv6 | Has(m.bmp, d)
      ensures CountFrom(m.bmp, d as nat) < |m.arr| && BranchOK(L, hf, m.arr[CountFrom(m.bmp, d as nat)], lab + [d])
    {
      SingleSlot(c, d);
    }
  }

  /** The branch of the two-leaf C-node under a present chunk lies under that chunk. */
  lemma PairBranch<V>(L: Labels<V>, hf: Key -> bv64, x: Entry<V>, cx: bv6, y: Entry<V>, cy: bv6, gen: Generation?,
                      m: Main<V>, lab: Label, d: bv6)
    requires cx != cy && m == Pair(x, cx, y, cy, gen) && Has(m.bmp, d)
    requires EntryOK(hf, x, lab + [cx]) && EntryOK(hf, y, lab + [cy])
    ensures CountFrom(m.bmp, d as nat) < |m.arr| && BranchOK(L, hf, m.arr[CountFrom(m.bmp, d as nat)], lab + [d])
  {
    PairSlot(x, cx, y, cy, gen, m, d);
  }

  /** The two-leaf C-node is well placed when each leaf lies under its chunk. */
  lemma PairOK<V>(L: Labels<V>, hf: Key -> bv64, x: Entry<V>, cx: bv6, y: Entry<V>, cy: bv6, gen: Generation?,
                  m: Main<V>, lab: Label)
    requires cx != cy && m == Pair(x, cx, y, cy, gen)
    requires |lab| <= 10 && EntryOK(hf, x, lab + [cx]) && EntryOK(hf, y, lab + [cy])
    ensures MainOK(L, hf, m, lab)
  {
    PairSlot(x, cx, y, cy, gen, m, cx);
    forall d: bv6 | Has(m.bmp, d)
      ensures CountFrom(m.bmp, d as nat) < |m.arr| && BranchOK(L, hf, m.arr[CountFrom(m.bmp, d as nat)], lab + [d])
    {
      PairBranch(L, hf, x, cx, y, cy, gen, m, lab, d);
    }
  }

  /** The collision list of two entries is well placed at the last level. */
  lemma PairListOK<V>(L: Labels<V>, hf: Key -> bv64, x: Entry<V>, y: Entry<V>, lab: Label)
    requires |lab| == 11 && EntryOK(hf, x, lab) && EntryOK(hf, y, lab)
    ensures MainOK(L, hf, LNode(Lists.Add(Lists.Add(Lists.Empty, x), y)), lab)
  {
    assert Lists.Elems(Lists.Add(Lists.Add(Lists.Empty, x), y)) == [y, x];
  }

  /** One level of a shape whose two hashes share the chunk: the single I-node below and its labels. */
  lemma SplitDown<V>(L: Labels<V>, hf: Key -> bv64, made: map<INode<V>, Main<V>>, m: Main<V>, x: Entry<V>, y: Entry<V>,
                     lev: nat, gen: Generation?, lab: Label, j: INode<V>, cx: bv6)
    requires lev < Exp2 && cx == Chunk(x.hash, lev) && cx == Chunk(y.hash, lev)
    requires SplitShape(made, m, x, x.hash, y, y.hash, lev, gen)
    requires j == m.arr[0].i
    requires var SL := ShapeLabels(made, m, x, x.hash, y, y.hash, lev, gen, lab);
      forall i :: i in SL ==> i in L && L[i] == SL[i]
    ensures j in made && j in L && L[j] == lab + [cx]
    ensures m.CNode? && m.bmp == Flag(cx) && |m.arr| == 1 && m.arr[0] == Ind(j) && BranchOK(L, hf, m.arr[0], lab + [cx])
    ensures SplitShape(made - {j}, made[j], x, x.hash, y, y.hash, lev + W, gen)
    ensures var SL := ShapeLabels(made - {j}, made[j], x, x.hash, y, y.hash, lev + W, gen, lab + [cx]);
      forall i :: i in SL ==> i in L && L[i] == SL[i]
  {
    var below := ShapeLabels(made - {j}, made[j], x, x.hash, y, y.hash, lev + W, gen, lab + [cx]);
    assert ShapeLabels(made, m, x, x.hash, y, y.hash, lev, gen, lab) == below[j := lab + [cx]];
  }

  /** The node at `j` and every other made node well placed: every made node is. */
  lemma MadeOK<V>(L: Labels<V>, hf: Key -> bv64, made: map<INode<V>, Main<V>>, j: INode<V>)
    requires j in made && j in L && MainOK(L, hf, made[j], L[j])
    requires forall i :: i in made - {j} ==> i in L && MainOK(L, hf, (made - {j})[i], L[i])
    ensures forall i :: i in made ==> i in L && MainOK(L, hf, made[i], L[i])
  {
    forall i | i in made
      ensures i in L && MainOK(L, hf, made[i], L[i])
    {
      if i != j {
        assert i in made - {j};
      }
    }
  }

  /** Every node newNode builds is well placed, given the labels ShapeLabels assigns. */
  lemma {:induction false} SplitOK<V>(L: Labels<V>, hf: Key -> bv64, made: map<INode<V>, Main<V>>, m: Main<V>,
                                      x: Entry<V>, y: Entry<V>, lev: nat, gen: Generation?, lab: Label)
    requires SplitShape(made, m, x, x.hash, y, y.hash, lev, gen)
    requires lev == 6 * |lab| && |lab| <= 11 && EntryOK(hf, x, lab) && EntryOK(hf, y, lab)
    requires var SL := ShapeLabels(made, m, x, x.hash, y, y.hash, lev, gen, lab);
      forall j :: j in SL ==> j in L && L[j] == SL[j]
    ensures MainOK(L, hf, m, lab)
    ensures forall j :: j in made ==> j in L && MainOK(L, hf, made[j], L[j])
    decreases if lev < Exp2 then Exp2 - lev else 0
  {
    if lev < Exp2 {
      var cx, cy := Chunk(x.hash, lev), Chunk(y.hash, lev);
      OnPathExtend(x.hash, lab);
      OnPathExtend(y.hash, lab);
      if cx == cy {
        var j := m.arr[0].i;
        SplitDown(L, hf, made, m, x, y, lev, gen, lab, j, cx);
        SingleOK(L, hf, m, cx, lab);
        SplitOK(L, hf, made - {j}, made[j], x, y, lev + W, gen, lab + [cx]);
        MadeOK(L, hf, made, j);
      } else {
        PairOK(L, hf, x, cx, y, cy, gen, m, lab);
      }
    } else {
      PairListOK(L, hf, x, y, lab);
    }
  }

  /** Below a one-branch C-node, a hash off its chunk finds nothing and one on it continues below. */
  lemma SingleFind<V>(H: Heap<V>, a: INode<V>, c: bv6, lev: nat, k: Key, h: bv64)
    requires a in H && H[a].CNode? && H[a].bmp == Flag(c) && |H[a].arr| == 1 && H[a].arr[0].Ind? && lev < Exp2
    ensures Find(H, a, lev, k, h) == if Chunk(h, lev) == c then Find(H, H[a].arr[0].i, lev + W, k, h) else None
  {
    var d := Chunk(h, lev);
    SingleSlot(c, d);
    if d == c {
      PathDown(H, a, H[a].arr[0].i, lev, h);
    } else {
      PathNoBit(H, a, lev, h);
    }
  }

  /** The path of a hash through the two-leaf C-node stops at the leaf under its chunk, if any. */
  lemma PairPath<V>(H: Heap<V>, a: INode<V>, x: Entry<V>, cx: bv6, y: Entry<V>, cy: bv6, gen: Generation?,
                    lev: nat, h: bv64, d: bv6)
    requires cx != cy && lev < Exp2 && a in H && H[a] == Pair(x, cx, y, cy, gen) && d == Chunk(h, lev)
    ensures PathOf(H, a, lev, h) == [CStep(2, if d == cx then LeafSlot(x) else if d == cy then LeafSlot(y) else NoBit)]
  {
    PairSlot(x, cx, y, cy, gen, H[a], d);
    if d == cx {
      PathLeaf(H, a, lev, h, x);
    } else if d == cy {
      PathLeaf(H, a, lev, h, y);
    } else {
      PathNoBit(H, a, lev, h);
    }
  }

  /** Below the two-leaf C-node, each of the two keys finds its value and every other key nothing. */
  lemma PairFind<V>(H: Heap<V>, a: INode<V>, x: Entry<V>, cx: bv6, y: Entry<V>, cy: bv6, gen: Generation?,
                    lev: nat, k: Key, h: bv64)
    requires cx != cy && lev < Exp2 && a in H && H[a] == Pair(x, cx, y, cy, gen)
    requires cx == Chunk(x.hash, lev) && cy == Chunk(y.hash, lev)
    requires x.key != y.key && (k == x.key ==> h == x.hash) && (k == y.key ==> h == y.hash)
    ensures Find(H, a, lev, k, h) == if k == y.key then Some(y.value) else if k == x.key then Some(x.value) else None
  {
    var d := Chunk(h, lev);
    PairPath(H, a, x, cx, y, cy, gen, lev, h, d);
  }

  /** Below the two-entry collision list, y's key finds y's value first. */
  lemma PairListFind<V>(H: Heap<V>, a: INode<V>, x: Entry<V>, y: Entry<V>, lev: nat, k: Key, h: bv64)
    requires a in H && H[a] == LNode(Lists.Add(Lists.Add(Lists.Empty, x), y))
    ensures Find(H, a, lev, k, h) == if k == y.key then Some(y.value) else if k == x.key then Some(x.value) else None
  {
    assert Lists.Elems(H[a].l) == [y, x];
    assert FirstValue([y, x], k) == if k == y.key then Some(y.value) else FirstValue([x], k);
  }

  /**
   * Below the node holding newNode's result, the key of y finds y's value,
   * the key of x finds x's value, and every other key finds nothing.
   */
  lemma {:induction false} SplitFind<V>(H: Heap<V>, a: INode<V>, made: map<INode<V>, Main<V>>, m: Main<V>,
                                        x: Entry<V>, y: Entry<V>, lev: nat, gen: Generation?, k: Key, h: bv64)
    requires SplitShape(made, m, x, x.hash, y, y.hash, lev, gen)
    requires a in H && H[a] == m && forall j :: j in made ==> j in H && H[j] == made[j]
    requires x.key != y.key && (k == x.key ==> h == x.hash) && (k == y.key ==> h == y.hash)
    ensures Find(H, a, lev, k, h) == if k == y.key then Some(y.value) else if k == x.key then Some(x.value) else None
    decreases if lev < Exp2 then Exp2 - lev else 0
  {
    if lev < Exp2 {
      var cx, cy := Chunk(x.hash, lev), Chunk(y.hash, lev);
      if cx == cy {
        var j := m.arr[0].i;
        SingleFind(H, a, cx, lev, k, h);
        if Chunk(h, lev) == cx {
          SplitFind(H, j, made - {j}, made[j], x, y, lev + W, gen, k, h);
        }
      } else {
        PairFind(H, a, x, cx, y, cy, gen, lev, k, h);
      }
    } else {
      PairListFind(H, a, x, y, lev, k, h);
    }
  }
  // -----------------------------------------------------------------------
  // The write at the parent
  // -----------------------------------------------------------------------

  /** C-node `i` holds the leaf of `sn` at chunk `c` of e's hash, at position `pos`. */
  ghost predicate LeafAt<V>(H0: Heap<V>, L0: Labels<V>, i: INode<V>, lev: nat, e: Entry<V>, sn: Entry<V>, c: bv6, pos: nat)
  {
    i in H0 && i in L0 && H0[i].CNode? && lev < Exp2 && lev == 6 * |L0[i]| &&
    c == Chunk(e.hash, lev) && Has(H0[i].bmp, c) && pos == CountFrom(H0[i].bmp, c as nat) &&
    pos < |H0[i].arr| && H0[i].arr[pos] == Leaf(sn)
  }

  /** The heap and labels after the split write, the fresh nodes labelled by their chunks. */
  ghost predicate SplitMaps<V>(H0: Heap<V>, L0: Labels<V>, i: INode<V>, e: Entry<V>, sn: Entry<V>, c: bv6, pos: nat,
                               nin: INode<V>, main: Main<V>, made: map<INode<V>, Main<V>>, SL: Labels<V>,
                               gen: Generation?, H1: Heap<V>, L1: Labels<V>)
  {
    i in H0 && i in L0 && H0[i].CNode? && pos < |H0[i].arr| &&
    nin !in H0 && nin !in made && (forall j :: j in made ==> j !in H0) && SL.Keys == made.Keys &&
    H1 == H0[i := Updated(H0[i], pos, Ind(nin), gen)][nin := main] + made &&
    L1 == L0[nin := L0[i] + [c]] + SL
  }

  /** The split only adds labels, for the fresh nodes. */
  lemma SplitLabels<V>(H0: Heap<V>, L0: Labels<V>, i: INode<V>, e: Entry<V>, sn: Entry<V>,
                       c: bv6, pos: nat, nin: INode<V>, main: Main<V>, made: map<INode<V>, Main<V>>, SL: Labels<V>,
                       gen: Generation?, H1: Heap<V>, L1: Labels<V>)
    requires SplitMaps(H0, L0, i, e, sn, c, pos, nin, main, made, SL, gen, H1, L1) && H0.Keys == L0.Keys
    ensures LabelsKept(L0, L1) && H1.Keys == L1.Keys && nin in L1 && L1[nin] == L0[i] + [c]
    ensures forall j :: j in SL ==> j in L1 && L1[j] == SL[j]
  {
  }

  /** The split writes `i`, adds `nin` and the nodes newNode built, and keeps every other node. */
  lemma SplitHeap<V>(H0: Heap<V>, L0: Labels<V>, i: INode<V>, e: Entry<V>, sn: Entry<V>,
                     c: bv6, pos: nat, nin: INode<V>, main: Main<V>, made: map<INode<V>, Main<V>>, SL: Labels<V>,
                     gen: Generation?, H1: Heap<V>, L1: Labels<V>)
    requires SplitMaps(H0, L0, i, e, sn, c, pos, nin, main, made, SL, gen, H1, L1)
    ensures nin in H1 && H1[nin] == main && i in H1 && H1[i] == Updated(H0[i], pos, Ind(nin), gen)
    ensures forall j :: j in made ==> j in H1 && H1[j] == made[j]
    ensures forall j :: j in H0 && j != i ==> j in H1 && H1[j] == H0[j]
    ensures forall j :: j in H1 ==> j in H0 || j == nin || j in made
  {
  }

  lemma SplitFrame<V>(H0: Heap<V>, L0: Labels<V>, i: INode<V>, e: Entry<V>, sn: Entry<V>,
                      c: bv6, pos: nat, nin: INode<V>, main: Main<V>, made: map<INode<V>, Main<V>>, SL: Labels<V>,
                      gen: Generation?, H1: Heap<V>, L1: Labels<V>)
    requires SplitMaps(H0, L0, i, e, sn, c, pos, nin, main, made, SL, gen, H1, L1)
    ensures Unchanged(H0, H1, L0, L0[i])
  {
    SplitHeap(H0, L0, i, e, sn, c, pos, nin, main, made, SL, gen, H1, L1);
    WriteUnchanged(H0, H1, L0, i);
  }

  /** A write to `i` alone leaves unchanged every node outside the subtree of i's label. */
  lemma WriteUnchanged<V>(H0: Heap<V>, H1: Heap<V>, L0: Labels<V>, i: INode<V>)
    requires i in L0 && forall j :: j in H0 && j != i ==> j in H1 && H1[j] == H0[j]
    ensures Unchanged(H0, H1, L0, L0[i])
  {
  }

  /** The written C-node is well placed once `nin` is labelled by its chunk. */
  lemma SplitParentOK<V>(H0: Heap<V>, L0: Labels<V>, hf: Key -> bv64, i: INode<V>, c: bv6, pos: nat,
                         nin: INode<V>, gen: Generation?, L1: Labels<V>)
    requires HeapOK(H0, L0, hf) && i in H0 && H0[i].CNode? && Has(H0[i].bmp, c)
    requires pos == CountFrom(H0[i].bmp, c as nat) && pos < |H0[i].arr|
    requires LabelsKept(L0, L1) && nin in L1 && L1[nin] == L0[i] + [c]
    ensures MainOK(L1, hf, Updated(H0[i], pos, Ind(nin), gen), L0[i])
  {
    assert NodeOK(H0, L0, hf, i);
    MainOKMono(L0, L1, hf, H0[i], L0[i]);
    SwapOK(L1, hf, Updated(H0[i], pos, Ind(nin), gen), H0[i], c, Ind(nin), L0[i]);
  }

  /** The split keeps the heap well formed. */
  lemma SplitHeapOK<V>(H0: Heap<V>, L0: Labels<V>, hf: Key -> bv64, i: INode<V>, lev: nat, e: Entry<V>, sn: Entry<V>,
                       c: bv6, pos: nat, nin: INode<V>, main: Main<V>, made: map<INode<V>, Main<V>>, SL: Labels<V>,
                       gen: Generation?, H1: Heap<V>, L1: Labels<V>)
    requires HeapOK(H0, L0, hf) && LeafAt(H0, L0, i, lev, e, sn, c, pos) && EntryOK(hf, e, L0[i])
    requires SplitShape(made, main, sn, sn.hash, e, e.hash, lev + W, gen)
    requires SL == ShapeLabels(made, main, sn, sn.hash, e, e.hash, lev + W, gen, L0[i] + [c])
    requires SplitMaps(H0, L0, i, e, sn, c, pos, nin, main, made, SL, gen, H1, L1)
    ensures HeapOK(H1, L1, hf) && LabelsKept(L0, L1)
  {
    SplitLabels(H0, L0, i, e, sn, c, pos, nin, main, made, SL, gen, H1, L1);
    SplitHeap(H0, L0, i, e, sn, c, pos, nin, main, made, SL, gen, H1, L1);
    BranchAt(H0, L0, hf, i, c);
    OnPathExtend(e.hash, L0[i]);
    SplitOK(L1, hf, made, main, sn, e, lev + W, gen, L0[i] + [c]);
    SplitParentOK(H0, L0, hf, i, c, pos, nin, gen, L1);
    HeapStep(H0, L0, H1, L1, hf);
  }

  /** After the split, e's key finds e's value and every other key what it found before. */
  lemma SplitKey<V>(H0: Heap<V>, L0: Labels<V>, hf: Key -> bv64, i: INode<V>, lev: nat, e: Entry<V>, sn: Entry<V>,
                    c: bv6, pos: nat, nin: INode<V>, main: Main<V>, made: map<INode<V>, Main<V>>, gen: Generation?,
                    H1: Heap<V>, k: Key)
    requires HeapOK(H0, L0, hf) && LeafAt(H0, L0, i, lev, e, sn, c, pos) && EntryOK(hf, e, L0[i])
    requires sn.key != e.key && SplitShape(made, main, sn, sn.hash, e, e.hash, lev + W, gen)
    requires nin in H1 && H1[nin] == main && i in H1 && H1[i] == Updated(H0[i], pos, Ind(nin), gen)
    requires forall j :: j in made ==> j in H1 && H1[j] == made[j]
    requires forall j :: j in H0 && j != i ==> j in H1 && H1[j] == H0[j]
    requires OnPath(hf(k), L0[i])
    ensures Find(H1, i, lev, k, hf(k)) == if k == e.key then Some(e.value) else Find(H0, i, lev, k, hf(k))
  {
    if Chunk(hf(k), lev) != c {
      OtherChunk(hf, e, k, lev);
      SplitOtherChunk(H0, L0, hf, i, lev, c, pos, nin, gen, H1, k);
    } else {
      BranchAt(H0, L0, hf, i, c);
      SplitSameChunk(H0, H1, i, lev, e, sn, pos, nin, main, made, gen, k, hf(k));
    }
  }

  /** A key off the written chunk finds what it found before. */
  lemma SplitOtherChunk<V>(H0: Heap<V>, L0: Labels<V>, hf: Key -> bv64, i: INode<V>, lev: nat, c: bv6, pos: nat,
                           nin: INode<V>, gen: Generation?, H1: Heap<V>, k: Key)
    requires HeapOK(H0, L0, hf) && i in H0 && H0[i].CNode? && lev == 6 * |L0[i]| && OnPath(hf(k), L0[i])
    requires Has(H0[i].bmp, c) && pos == CountFrom(H0[i].bmp, c as nat) && pos < |H0[i].arr|
    requires i in H1 && H1[i] == Updated(H0[i], pos, Ind(nin), gen)
    requires forall j :: j in H0 && j != i ==> j in H1 && H1[j] == H0[j]
    requires Chunk(hf(k), lev) != c
    ensures Find(H1, i, lev, k, hf(k)) == Find(H0, i, lev, k, hf(k))
  {
    var n, h := H0[i], hf(k);
    assert NodeOK(H0, L0, hf, i);
    SwapSlots(H1[i], n, c, Ind(nin), Chunk(h, lev));
    SlotKept(H0, H1, L0, hf, i, lev, h, H1[i]);
    OutcomeFind(Last(PathOf(H1, i, lev, h)), Last(PathOf(H0, i, lev, h)), k);
  }

  /** A key on the written chunk finds what newNode's result holds for it. */
  lemma SplitSameChunk<V>(H0: Heap<V>, H1: Heap<V>, i: INode<V>, lev: nat, e: Entry<V>, sn: Entry<V>, pos: nat,
                          nin: INode<V>, main: Main<V>, made: map<INode<V>, Main<V>>, gen: Generation?, k: Key, h: bv64)
    requires i in H0 && H0[i].CNode? && lev < Exp2 && Has(H0[i].bmp, Chunk(h, lev))
    requires pos == CountFrom(H0[i].bmp, Chunk(h, lev) as nat) && pos < |H0[i].arr| && H0[i].arr[pos] == Leaf(sn)
    requires nin in H1 && H1[nin] == main && i in H1 && H1[i] == Updated(H0[i], pos, Ind(nin), gen)
    requires forall j :: j in made ==> j in H1 && H1[j] == made[j]
    requires sn.key != e.key && SplitShape(made, main, sn, sn.hash, e, e.hash, lev + W, gen)
    requires (k == sn.key ==> h == sn.hash) && (k == e.key ==> h == e.hash)
    ensures Find(H1, i, lev, k, h) == if k == e.key then Some(e.value) else Find(H0, i, lev, k, h)
  {
    PathLeaf(H0, i, lev, h, sn);
    PathDown(H1, i, nin, lev, h);
    SplitFind(H1, nin, made, main, sn, e, lev + W, gen, k, h);
  }

  /** After the split, e's key is bound to e's value below `i` and every other key is as before. */
  lemma SplitRel<V>(H0: Heap<V>, L0: Labels<V>, hf: Key -> bv64, i: INode<V>, lev: nat, e: Entry<V>, sn: Entry<V>,
                    c: bv6, pos: nat, nin: INode<V>, main: Main<V>, made: map<INode<V>, Main<V>>, SL: Labels<V>,
                    gen: Generation?, H1: Heap<V>, L1: Labels<V>)
    requires HeapOK(H0, L0, hf) && LeafAt(H0, L0, i, lev, e, sn, c, pos) && EntryOK(hf, e, L0[i])
    requires sn.key != e.key && SplitShape(made, main, sn, sn.hash, e, e.hash, lev + W, gen)
    requires SplitMaps(H0, L0, i, e, sn, c, pos, nin, main, made, SL, gen, H1, L1)
    requires HeapOK(H1, L1, hf) && LabelsKept(L0, L1)
    ensures Rel(H0, H1, i, lev, hf, e.key, Some(e.value))
  {
    SplitHeap(H0, L0, i, e, sn, c, pos, nin, main, made, SL, gen, H1, L1);
    forall k | OnPath(hf(k), L0[i])
      ensures Find(H1, i, lev, k, hf(k)) == if k == e.key then Some(e.value) else Find(H0, i, lev, k, hf(k))
    {
      SplitKey(H0, L0, hf, i, lev, e, sn, c, pos, nin, main, made, gen, H1, k);
    }
    RelFromOnPath(H0, H1, L0, L1, hf, i, lev, e.key, Some(e.value));
  }

  /**
   * branchsnode, different keys: after the split, e's key is bound to e's
   * value below `i` and every other key is as before, and the heap stays
   * well formed (SplitFrame: only `i` among the old nodes changes).
   */
  lemma SplitStep<V>(H0: Heap<V>, L0: Labels<V>, hf: Key -> bv64, i: INode<V>, lev: nat, e: Entry<V>, sn: Entry<V>,
                     c: bv6, pos: nat, nin: INode<V>, main: Main<V>, made: map<INode<V>, Main<V>>, SL: Labels<V>,
                     gen: Generation?, H1: Heap<V>, L1: Labels<V>)
    requires HeapOK(H0, L0, hf) && LeafAt(H0, L0, i, lev, e, sn, c, pos) && EntryOK(hf, e, L0[i])
    requires sn.key != e.key && SplitShape(made, main, sn, sn.hash, e, e.hash, lev + W, gen)
    requires SL == ShapeLabels(made, main, sn, sn.hash, e, e.hash, lev + W, gen, L0[i] + [c])
    requires SplitMaps(H0, L0, i, e, sn, c, pos, nin, main, made, SL, gen, H1, L1)
    ensures HeapOK(H1, L1, hf) && LabelsKept(L0, L1)
    ensures Rel(H0, H1, i, lev, hf, e.key, Some(e.value))
  {
    SplitHeapOK(H0, L0, hf, i, lev, e, sn, c, pos, nin, main, made, SL, gen, H1, L1);
    SplitRel(H0, L0, hf, i, lev, e, sn, c, pos, nin, main, made, SL, gen, H1, L1);
  }

  /**
   * branchsnode's split as one write: the heap and labels after it, well
   * formed, binding the new entry's key below `i` and changing nothing
   * outside `i`'s subtree.
   */
  lemma SplitWrite<V>(H0: Heap<V>, L0: Labels<V>, hf: Key -> bv64, i: INode<V>, lev: nat, e: Entry<V>, sn: Entry<V>,
                      c: bv6, pos: nat, nin: INode<V>, main: Main<V>, made: map<INode<V>, Main<V>>, gen: Generation?)
    returns (H1: Heap<V>, L1: Labels<V>)
    requires HeapOK(H0, L0, hf) && LeafAt(H0, L0, i, lev, e, sn, c, pos) && EntryOK(hf, e, L0[i])
    requires sn.key != e.key && SplitShape(made, main, sn, sn.hash, e, e.hash, lev + W, gen)
    requires nin !in H0 && nin !in made && forall j :: j in made ==> j !in H0
    ensures HeapOK(H1, L1, hf) && LabelsKept(L0, L1) && Unchanged(H0, H1, L0, L0[i])
    ensures Rel(H0, H1, i, lev, hf, e.key, Some(e.value))
    ensures nin in H1 && H1[nin] == main && i in H1 && H1[i] == Updated(H0[i], pos, Ind(nin), gen)
    ensures forall j :: j in made ==> j in H1 && H1[j] == made[j]
    ensures forall j :: j in H0 && j != i ==> j in H1 && H1[j] == H0[j]
    ensures forall j :: j in H1 ==> j in H0 || j == nin || j in made
  {
    var SL := ShapeLabels(made, main, sn, sn.hash, e, e.hash, lev + W, gen, L0[i] + [c]);
    H1 := Plus(H0[i := Updated(H0[i], pos, Ind(nin), gen)][nin := main], made);
    L1 := L0[nin := L0[i] + [c]] + SL;
    SplitStep(H0, L0, hf, i, lev, e, sn, c, pos, nin, main, made, SL, gen, H1, L1);
    SplitFrame(H0, L0, i, e, sn, c, pos, nin, main, made, SL, gen, H1, L1);
    SplitHeap(H0, L0, i, e, sn, c, pos, nin, main, made, SL, gen, H1, L1);
  }
}
