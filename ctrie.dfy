/**
 * The Ctrie itself (ctrie.go, ctrie_internals.go, util.go): a hash array
 * mapped trie whose only mutable cells are the I-nodes' main fields and the
 * root, with generation-tagged I-nodes for constant-time snapshots.
 *
 * The engine runs one operation at a time, so every GCAS and RDCSS of the
 * source succeeds on its first try and is modelled as the plain write it
 * then performs (`i.main := n`, `root := r`).
 *
 * Next to the real state, the class keeps a ghost mirror `H` of every
 * I-node's main node and a ghost label map `L`; `Valid()` ties the mirror to
 * the real `main` fields, and `Get` reads the map the trie stands for.
 */
module Ctries {
  import opened Bits
  import opened Wrappers
  import opened Node
  import opened View
  import opened Steps
  import opened Util
  import Lists
  import opened Shrink
  import opened Split
  import opened Writes
  import opened Removes

  /** flagPos followed by the test of the chunk's bit, with the bit operations kept inside. */
  method Probe(h: bv64, lev: nat, bmp: bv64) returns (flag: bv64, pos: nat, present: bool)
    ensures flag == Flag(Chunk(h, lev))
    ensures present <==> Has(bmp, Chunk(h, lev))
    ensures pos == CountFrom(bmp, Chunk(h, lev) as nat)
    ensures present ==> pos < PopCount(bmp)
  {
    flag, pos := FlagPos(h, lev, bmp);
    present := bmp & flag != 0;
  }

  /**
   * nobit: when the chunk's bit is clear, the C-node (renewed to `gen` if
   * need be) with a new leaf for `e`; when it is set, only the position.
   */
  method NoBitCNode<V>(cn: Main<V>, gen: Generation?, e: Entry<V>, lev: nat)
    returns (pos: nat, ncn: Option<Main<V>>, ghost rn: Main<V>, ghost copies: map<INode<V>, INode<V>>)
    requires cn.CNode? && |cn.arr| == PopCount(cn.bmp)
    ensures pos == CountFrom(cn.bmp, Chunk(e.hash, lev) as nat)
    ensures ncn.None? <==> Has(cn.bmp, Chunk(e.hash, lev))
    ensures ncn.Some? ==>
      (cn.gen == gen ==> rn == cn && copies == map[]) && (cn.gen != gen ==> RenewedFrom(rn, cn, gen, copies)) &&
      SplicedIn(ncn.value, rn, Chunk(e.hash, lev), Leaf(e)) && ncn.value.gen == gen
    ensures forall y :: y in copies ==> fresh(y) && y.main == copies[y].main && y.gen == gen
  {
    var bmp, h := cn.bmp, e.hash;
    var flag;
    flag, pos := FlagPos(h, lev, bmp);
    if bmp & flag != 0 {
      rn, copies := cn, map[];
      return pos, None, rn, copies;
    }
    var renewed, cp := Renewif(cn, gen);
    rn, copies := renewed, cp;
    RenewifShape(cn, renewed, gen, cp);
    var r := Grow(renewed, bmp, gen, e, Chunk(h, lev), flag, pos);
    ncn := Some(r);
  }

  /** cinsert's write when the chunk's bit is clear: `i` takes the C-node with the new leaf. */
  method PlaceNew<V>(ghost H0: Heap<V>, i: INode<V>, main: Main<V>, e: Entry<V>, lev: nat)
    returns (pos: nat, placed: bool, ghost rn: Main<V>, ghost copies: map<INode<V>, INode<V>>)
    requires i in H0 && H0[i] == main && main.CNode? && |main.arr| == PopCount(main.bmp)
    requires forall x :: x in H0 ==> x.main == H0[x]
    modifies i
    ensures pos == CountFrom(main.bmp, Chunk(e.hash, lev) as nat)
    ensures !placed <==> Has(main.bmp, Chunk(e.hash, lev))
    ensures !placed ==> i.main == main
    ensures placed ==>
      (main.gen == i.gen ==> rn == main && copies == map[]) && (main.gen != i.gen ==> RenewedFrom(rn, main, i.gen, copies)) &&
      SplicedIn(i.main, rn, Chunk(e.hash, lev), Leaf(e))
    ensures forall y :: y in copies ==> y !in H0 && y != i && fresh(y)
    ensures forall y :: y in copies && copies[y] in H0 ==> y.main == H0[copies[y]]
    ensures forall x :: x in H0 && x != i ==> x.main == H0[x]
  {
    var ncn;
    pos, ncn, rn, copies := NoBitCNode(main, i.gen, e, lev);
    placed := ncn.Some?;
    if placed {
      i.main := ncn.value;
    }
  }

  /** branchsnode's split write: the renewed C-node with the leaf's branch replaced by a fresh I-node
      over the new node holding both entries. */
  method Branched<V>(ghost H0: Heap<V>, i: INode<V>, main: Main<V>, sn: Entry<V>, e: Entry<V>, lev: nat, pos: nat)
    returns (ghost rn: Main<V>, ghost copies: map<INode<V>, INode<V>>, ghost nm: Main<V>,
             ghost made: map<INode<V>, Main<V>>, ghost nin: INode<V>)
    requires i in H0 && H0[i] == main && main.CNode? && pos < |main.arr|
    requires forall x :: x in H0 ==> x.main == H0[x]
    modifies i
    ensures main.gen == i.gen ==> rn == main && copies == map[]
    ensures main.gen != i.gen ==> RenewedFrom(rn, main, i.gen, copies)
    ensures forall y :: y in copies ==> y !in H0 && y != i
    ensures forall y :: y in copies && copies[y] in H0 ==> y.main == H0[copies[y]]
    ensures SplitShape(made, nm, sn, sn.hash, e, e.hash, lev + W, i.gen)
    ensures forall j :: j in made ==> j !in H0 && j !in copies && j != nin && j.main == made[j]
    ensures nin !in H0 && nin !in copies && nin.main == nm
    ensures fresh(nin) && (forall j :: j in made ==> fresh(j)) && forall y :: y in copies ==> fresh(y)
    ensures i.main == Updated(rn, pos, Ind(nin), i.gen)
    ensures forall x :: x in H0 && x != i ==> x.main == H0[x]
  {
    var r, cp := Renewif(main, i.gen);
    var m, below := NewNode(sn, sn.hash, e, e.hash, lev + W, i.gen);
    var inode := new INode(m, i.gen);
    RenewifShape(main, r, i.gen, cp);
    i.main := Updated(r, pos, Ind(inode), i.gen);
    rn, copies, nm, made, nin := r, cp, m, below, inode;
  }

  /** inserted, for the leaf of `e` at the position of clear chunk `c`. */
  method Grow<V>(rn: Main<V>, bmp: bv64, gen: Generation?, e: Entry<V>, ghost c: bv6, flag: bv64, pos: nat)
    returns (r: Main<V>)
    requires rn.CNode? && bmp == rn.bmp && flag == Flag(c) && bmp & flag == 0
    requires pos == CountFrom(bmp, c as nat) && pos <= |rn.arr|
    ensures SplicedIn(r, rn, c, Leaf(e)) && r.gen == gen
  {
    r := Inserted(rn, pos, flag, Leaf(e), gen);
    SplicedIntro(r, rn, c, Leaf(e), bmp, flag, pos);
  }

  /** Renewing (or not) keeps the C-node's bitmap and width. */
  lemma RenewifShape<V>(n: Main<V>, rn: Main<V>, gen: Generation?, copies: map<INode<V>, INode<V>>)
    requires n.CNode?
    requires n.gen == gen ==> rn == n && copies == map[]
    requires n.gen != gen ==> RenewedFrom(rn, n, gen, copies)
    ensures rn.CNode? && rn.bmp == n.bmp && |rn.arr| == |n.arr|
  {
  }

  /** A branch spliced in at the position of a clear chunk's flag is spliced in for that chunk. */
  lemma SplicedIntro<V>(m: Main<V>, n: Main<V>, c: bv6, b: Branch<V>, bmp: bv64, flag: bv64, pos: nat)
    requires n.CNode? && m.CNode? && bmp == n.bmp && flag == Flag(c) && bmp & flag == 0
    requires m.bmp == bmp | flag && pos == CountFrom(bmp, c as nat) && Spliced(m, n, pos, b)
    ensures SplicedIn(m, n, c, b)
  {
    FlagTest(bmp, flag, c);
  }

  class Ctrie<V> {
    var root: INode<V>
    const readOnly: bool
    const hash: Key -> bv64
    ghost var H: Heap<V>
    ghost var L: Labels<V>

    /** The mirror holds every reachable I-node's main node, well placed under its label. */
    ghost predicate Valid()
      reads this, H.Keys
    {
      root in H && root in L && L[root] == [] && HeapOK(H, L, hash) &&
      forall x :: x in H ==> x.main == H[x]
    }

    /** The value the trie maps `k` to. */
    ghost function Get(k: Key): Option<V>
      reads this
    {
      Find(H, root, 0, k, hash(k))
    }

    /**
     * Where a descent stands: I-node `i` at level `lev` on the path of `h`,
     * of the generation the operation started in, below `parent` (or the
     * root itself when there is no parent).
     */
    ghost predicate At(i: INode<V>, lev: nat, parent: INode?<V>, h: bv64, startGen: Generation?)
      reads this
    {
      i in H && i in L && lev == 6 * |L[i]| && OnPath(h, L[i]) && i.gen == startGen && startGen == root.gen &&
      (parent == null ==> i == root) &&
      (parent != null ==> W <= lev && parent.gen == startGen && Below(H, L, parent, i, lev - W, Chunk(h, lev - W), h))
    }

    /** newCtrie: an empty read-write trie whose root holds an empty C-node. */
    constructor (hash: Key -> bv64)
      ensures Valid() && !readOnly && this.hash == hash
      ensures forall k :: Get(k) == None
    {
      var r := new INode(CNode(0, [], null), null);
      this.root := r;
      this.readOnly := false;
      this.hash := hash;
      this.H := map[r := CNode(0, [], null)];
      this.L := map[r := []];
      new;
      EmptyRoot(H, L, hash, r, null);
    }

    /** makectrie: a trie over an existing root, with the view that root stands for. */
    constructor Make(root: INode<V>, hash: Key -> bv64, readOnly: bool, ghost H: Heap<V>, ghost L: Labels<V>)
      requires root in H && root in L && L[root] == [] && HeapOK(H, L, hash)
      requires forall x :: x in H ==> x.main == H[x]
      ensures Valid() && this.root == root && this.hash == hash && this.readOnly == readOnly
      ensures this.H == H && this.L == L
    {
      this.root := root;
      this.hash := hash;
      this.readOnly := readOnly;
      this.H := H;
      this.L := L;
    }

    // ---------------------------------------------------------------------
    // clean
    // ---------------------------------------------------------------------

    /**
     * clean: compress the C-node of `p`, contracting it at level `lev`;
     * `levp` is the level `p` actually sits at, and `j` the tomb below it
     * on the path of `h`.
     */
    method Clean(p: INode<V>, lev: nat, ghost levp: nat, ghost h: bv64, ghost j: INode<V>, ghost c: bv6)
      requires Valid() && Below(H, L, p, j, levp, c, h) && j in H && H[j].TNode?
      requires (lev == 0) == (levp == 0) || !Collapses(H, p, levp, h)
      modifies this`H, this`L, p
      ensures KeptBut(old(H), H, p)
      ensures H.Keys == old(H).Keys
      ensures Valid() && L == old(L) && Unchanged(old(H), H, L, L[p])
      ensures Retry(old(H), H, p, levp, hash, h)
      ensures H == old(H)[p := ToContracted(Compressed(old(H), old(H)[p]), lev)]
    {
      // p holds the C-node above the tomb, so the source's test for a C-node always passes
      var main := p.main;
      BranchesIn(H, L, hash, p);
      var r := ToCompressed(main, lev, H);
      p.main := r;
      Compacted(p, lev, levp, h, j, c);
    }

    /** The ghost side of clean's write: the mirror takes in the compressed C-node. */
    ghost method Compacted(p: INode<V>, lev: nat, levp: nat, h: bv64, j: INode<V>, c: bv6)
      requires HeapOK(H, L, hash) && root in H && root in L && L[root] == []
      requires Below(H, L, p, j, levp, c, h) && j in H && H[j].TNode?
      requires (lev == 0) == (levp == 0) || !Collapses(H, p, levp, h)
      requires forall x :: x in H && x != p ==> x.main == H[x]
      requires p.main == ToContracted(Compressed(H, H[p]), lev)
      modifies this`H, this`L
      ensures KeptBut(old(H), H, p)
      ensures H.Keys == old(H).Keys
      ensures Valid() && L == old(L) && Unchanged(old(H), H, L, L[p])
      ensures Retry(old(H), H, p, levp, hash, h)
      ensures H == old(H)[p := ToContracted(Compressed(old(H), old(H)[p]), lev)]
    {
      var Hn := CleanView(H, L, hash, p, lev, levp, h, j, c);
      KeptButWrite(H, p, ToContracted(Compressed(H, H[p]), lev));
      MirrorWrite(H, p, ToContracted(Compressed(H, H[p]), lev));
      Commit(Hn, L);
    }

    // ---------------------------------------------------------------------
    // insert
    // ---------------------------------------------------------------------

    /** iinsert: insert `e` below `i`; false when a tomb had to be cleaned first. */
    method IInsert(i: INode<V>, e: Entry<V>, lev: nat, parent: INode?<V>, startGen: Generation?) returns (ok: bool)
      requires Valid() && !readOnly && e.hash == hash(e.key) && At(i, lev, parent, e.hash, startGen)
      modifies this`H, this`L, H.Keys
      ensures Valid() && LabelsKept(old(L), L)
      ensures Unchanged(old(H), H, old(L), old(L)[Top(i, parent)])
      ensures ok ==> Rel(old(H), H, Top(i, parent), 6 * |old(L)[Top(i, parent)]|, hash, e.key, Some(e.value))
      ensures !ok ==> Retry(old(H), H, Top(i, parent), 6 * |old(L)[Top(i, parent)]|, hash, e.hash)
      ensures GenKept(old(H), H, root.gen)
      ensures forall x :: x in H ==> x in old(H) || fresh(x)
      decreases Exp2 + W - lev, Stale(H, i, lev, e.hash, startGen), 4
    {
      assert NodeOK(H, L, hash, i);
      var main := i.main;
      match main
      case CNode(_, _, _) =>
        ok := CInsert(main, i, e, lev, parent, startGen);
      case TNode(_) =>
        ghost var H0 := H;
        Clean(parent, lev - W, lev - W, e.hash, i, Chunk(e.hash, lev - W));
        KeptGen(H0, H, parent, root.gen);
        ok := false;
      case LNode(l) =>
        ghost var H0 := H;
        i.main := LNode(LInserted(l, e));
        Appended(i, lev, parent, e, l);
        KeptGen(H0, H, i, root.gen);
        ok := true;
    }

    /** The ghost side of iinsert's write at an L-node: the mirror takes in the longer list. */
    ghost method Appended(i: INode<V>, lev: nat, parent: INode?<V>, e: Entry<V>, l: Lists.List<Entry<V>>)
      requires HeapOK(H, L, hash) && root in H && root in L && L[root] == [] && e.hash == hash(e.key)
      requires At(i, lev, parent, e.hash, i.gen) && H[i] == LNode(l) && i.main == LNode(LInserted(l, e))
      requires forall x :: x in H && x != i ==> x.main == H[x]
      modifies this`H, this`L
      ensures KeptBut(old(H), H, i)
      ensures Valid() && LabelsKept(old(L), L) && H.Keys == old(H).Keys
      ensures Unchanged(old(H), H, old(L), old(L)[Top(i, parent)])
      ensures Rel(old(H), H, Top(i, parent), 6 * |old(L)[Top(i, parent)]|, hash, e.key, Some(e.value))
    {
      var Hn := LInsertView(H, L, hash, i, lev, parent, e);
      KeptButWrite(H, i, LNode(LInserted(l, e)));
      MirrorWrite(H, i, LNode(LInserted(l, e)));
      Commit(Hn, L);
    }

    /** cinsert: insert at a C-node, by the state of the chunk's bit. */
    method CInsert(main: Main<V>, i: INode<V>, e: Entry<V>, lev: nat, parent: INode?<V>, startGen: Generation?)
      returns (ok: bool)
      requires Valid() && !readOnly && e.hash == hash(e.key) && At(i, lev, parent, e.hash, startGen)
      requires main.CNode? && H[i] == main
      modifies this`H, this`L, H.Keys
      ensures Valid() && LabelsKept(old(L), L)
      ensures Unchanged(old(H), H, old(L), old(L)[Top(i, parent)])
      ensures ok ==> Rel(old(H), H, Top(i, parent), 6 * |old(L)[Top(i, parent)]|, hash, e.key, Some(e.value))
      ensures !ok ==> Retry(old(H), H, Top(i, parent), 6 * |old(L)[Top(i, parent)]|, hash, e.hash)
      ensures GenKept(old(H), H, root.gen)
      ensures forall x :: x in H ==> x in old(H) || fresh(x)
      decreases Exp2 + W - lev, Stale(H, i, lev, e.hash, startGen), 3
    {
      CNodeDepth(H, L, hash, i);
      var bmp := main.bmp;
      var flag, pos, present := Probe(e.hash, lev, bmp);
      if !present {
        InsertNoBit(main, i, e, lev, parent, startGen);
        ok := true;
      } else {
        ok := CBranch(main, i, e, lev, parent, startGen, pos);
      }
    }

    /** cinsert when the chunk's bit is clear: the entry spliced into a renewed copy of the C-node. */
    method InsertNoBit(main: Main<V>, i: INode<V>, e: Entry<V>, lev: nat, parent: INode?<V>, startGen: Generation?)
      requires Valid() && !readOnly && e.hash == hash(e.key) && At(i, lev, parent, e.hash, startGen)
      requires main.CNode? && H[i] == main && !Has(main.bmp, Chunk(e.hash, lev))
      modifies this`H, this`L, H.Keys
      ensures Valid() && LabelsKept(old(L), L)
      ensures Unchanged(old(H), H, old(L), old(L)[Top(i, parent)])
      ensures Rel(old(H), H, Top(i, parent), 6 * |old(L)[Top(i, parent)]|, hash, e.key, Some(e.value))
      ensures GenKept(old(H), H, root.gen)
      ensures forall x :: x in H ==> x in old(H) || fresh(x)
    {
      CNodeDepth(H, L, hash, i);
      var pos, placed, rn, copies := PlaceNew(H, i, main, e, lev);
      InsertedHere(main, i, e, lev, parent, startGen, rn, copies, i.main);
    }

    /** cinsert when the chunk's bit is set: by the kind of the branch at `pos`. */
    method CBranch(main: Main<V>, i: INode<V>, e: Entry<V>, lev: nat, parent: INode?<V>, startGen: Generation?,
                   pos: nat) returns (ok: bool)
      requires Valid() && !readOnly && e.hash == hash(e.key) && At(i, lev, parent, e.hash, startGen)
      requires main.CNode? && H[i] == main && lev < Exp2 && Has(main.bmp, Chunk(e.hash, lev))
      requires pos == CountFrom(main.bmp, Chunk(e.hash, lev) as nat)
      modifies this`H, this`L, H.Keys
      ensures Valid() && LabelsKept(old(L), L)
      ensures Unchanged(old(H), H, old(L), old(L)[Top(i, parent)])
      ensures ok ==> Rel(old(H), H, Top(i, parent), 6 * |old(L)[Top(i, parent)]|, hash, e.key, Some(e.value))
      ensures !ok ==> Retry(old(H), H, Top(i, parent), 6 * |old(L)[Top(i, parent)]|, hash, e.hash)
      ensures GenKept(old(H), H, root.gen)
      ensures forall x :: x in H ==> x in old(H) || fresh(x)
      decreases Exp2 + W - lev, Stale(H, i, lev, e.hash, startGen), 2
    {
      var c := Chunk(e.hash, lev);
      BranchAt(H, L, hash, i, c);
      match main.arr[pos]
      case Ind(inode) =>
        ok := BranchINode(main, inode, i, e, lev, parent, startGen);
      case Leaf(sn) =>
        ghost var H0 := H;
        BranchSNode(main, sn, i, e, lev, parent, c, pos);
        KeptGen(H0, H, i, root.gen);
        ok := true;
    }

    /** The ghost side of nobit's write: the mirror follows the renewal and the new C-node. */
    ghost method InsertedHere(main: Main<V>, i: INode<V>, e: Entry<V>, lev: nat, parent: INode?<V>, startGen: Generation?,
                              rn: Main<V>, copies: map<INode<V>, INode<V>>, m: Main<V>)
      requires HeapOK(H, L, hash) && root in H && root in L && L[root] == [] && e.hash == hash(e.key)
      requires At(i, lev, parent, e.hash, startGen) && H[i] == main && main.CNode? && i.main == m
      requires forall x :: x in H && x != i ==> x.main == H[x]
      requires main.gen == i.gen ==> rn == main && copies == map[]
      requires main.gen != i.gen ==> RenewedFrom(rn, main, i.gen, copies)
      requires forall y :: y in copies ==> y !in H && y != i
      requires forall y :: y in copies && copies[y] in H ==> y.main == H[copies[y]]
      requires SplicedIn(m, rn, Chunk(e.hash, lev), Leaf(e))
      modifies this`H, this`L
      ensures GenKept(old(H), H, root.gen)
      ensures forall x :: x in H ==> x in old(H) || x in copies
      ensures Valid() && LabelsKept(old(L), L)
      ensures Unchanged(old(H), H, old(L), old(L)[Top(i, parent)])
      ensures Rel(old(H), H, Top(i, parent), 6 * |old(L)[Top(i, parent)]|, hash, e.key, Some(e.value))
    {
      var Hn, Ln := NoBitView(H, L, hash, i, lev, parent, e, i.gen, rn, copies, m);
      RenewingMirror(H, Hn, i, copies);
      ghost var H0 := H;
      Commit(Hn, Ln);
      KeptGen(H0, H, i, root.gen);
    }

    /**
     * branchinode: descend into the I-node when it is of the operation's
     * generation; otherwise renew `i`'s C-node to that generation and retry.
     */
    method BranchINode(main: Main<V>, inode: INode<V>, i: INode<V>, e: Entry<V>, lev: nat, parent: INode?<V>,
                       startGen: Generation?) returns (ok: bool)
      requires Valid() && !readOnly && e.hash == hash(e.key) && At(i, lev, parent, e.hash, startGen)
      requires main.CNode? && H[i] == main && lev < Exp2 && ChildAt(H, i, Chunk(e.hash, lev), inode)
      modifies this`H, this`L, H.Keys
      ensures Valid() && LabelsKept(old(L), L)
      ensures Unchanged(old(H), H, old(L), old(L)[Top(i, parent)])
      ensures ok ==> Rel(old(H), H, Top(i, parent), 6 * |old(L)[Top(i, parent)]|, hash, e.key, Some(e.value))
      ensures !ok ==> Retry(old(H), H, Top(i, parent), 6 * |old(L)[Top(i, parent)]|, hash, e.hash)
      ensures GenKept(old(H), H, root.gen)
      ensures forall x :: x in H ==> x in old(H) || fresh(x)
      decreases Exp2 + W - lev, Stale(H, i, lev, e.hash, startGen), 1
    {
      if startGen == inode.gen {
        ok := Descend(main, inode, i, e, lev, parent, startGen);
      } else {
        ok := RenewRetry(main, inode, i, e, lev, parent, startGen);
      }
    }

    /** branchinode, I-node of the operation's generation: insert one level down. */
    method Descend(main: Main<V>, inode: INode<V>, i: INode<V>, e: Entry<V>, lev: nat, parent: INode?<V>,
                   startGen: Generation?) returns (ok: bool)
      requires Valid() && !readOnly && e.hash == hash(e.key) && At(i, lev, parent, e.hash, startGen)
      requires main.CNode? && H[i] == main && lev < Exp2 && ChildAt(H, i, Chunk(e.hash, lev), inode)
      requires startGen == inode.gen
      modifies this`H, this`L, H.Keys
      ensures Valid() && LabelsKept(old(L), L)
      ensures Unchanged(old(H), H, old(L), old(L)[Top(i, parent)])
      ensures ok ==> Rel(old(H), H, Top(i, parent), 6 * |old(L)[Top(i, parent)]|, hash, e.key, Some(e.value))
      ensures !ok ==> Retry(old(H), H, Top(i, parent), 6 * |old(L)[Top(i, parent)]|, hash, e.hash)
      ensures GenKept(old(H), H, root.gen)
      ensures forall x :: x in H ==> x in old(H) || fresh(x)
      decreases Exp2 + W - lev, Stale(H, i, lev, e.hash, startGen), 0
    {
      var c := Chunk(e.hash, lev);
      ghost var H0, L0 := H, L;
      CNodeDepth(H, L, hash, i);
      BranchAt(H, L, hash, i, c);
      OnPathExtend(e.hash, L[i]);
      ok := IInsert(inode, e, lev + W, i, startGen);
      LiftUp(H0, L0, H, L, hash, i, lev, parent, e.key, Some(e.value), ok);
    }

    /** branchinode, I-node of an older generation: renew `i`'s C-node, then retry at `i`. */
    method RenewRetry(main: Main<V>, inode: INode<V>, i: INode<V>, e: Entry<V>, lev: nat, parent: INode?<V>,
                      startGen: Generation?) returns (ok: bool)
      requires Valid() && !readOnly && e.hash == hash(e.key) && At(i, lev, parent, e.hash, startGen)
      requires main.CNode? && H[i] == main && lev < Exp2 && ChildAt(H, i, Chunk(e.hash, lev), inode)
      requires startGen != inode.gen
      modifies this`H, this`L, H.Keys
      ensures Valid() && LabelsKept(old(L), L)
      ensures Unchanged(old(H), H, old(L), old(L)[Top(i, parent)])
      ensures ok ==> Rel(old(H), H, Top(i, parent), 6 * |old(L)[Top(i, parent)]|, hash, e.key, Some(e.value))
      ensures !ok ==> Retry(old(H), H, Top(i, parent), 6 * |old(L)[Top(i, parent)]|, hash, e.hash)
      ensures GenKept(old(H), H, root.gen)
      ensures forall x :: x in H ==> x in old(H) || fresh(x)
      decreases Exp2 + W - lev, Stale(H, i, lev, e.hash, startGen), 0
    {
      ghost var H0, L0 := H, L;
      StaleChild(H, i, lev, e.hash, startGen, inode);
      RenewAt(main, i, lev, parent, startGen, e.hash);
      KeptGen(H0, H, i, root.gen);
      ghost var Hr, Lr := H, L;
      ok := IInsert(i, e, lev, parent, startGen);
      GenKeptTrans(H0, Hr, H, root.gen);
      ThroughRenewal(H0, Hr, H, L0, Lr, L, hash, Top(i, parent), e.key, Some(e.value), ok);
    }

    /** The renewal half of branchinode: `i` takes its C-node renewed to generation `startGen`. */
    method RenewAt(main: Main<V>, i: INode<V>, lev: nat, parent: INode?<V>, startGen: Generation?, ghost h: bv64)
      requires Valid() && At(i, lev, parent, h, startGen) && H[i] == main && main.CNode?
      modifies this`H, this`L, i
      ensures KeptBut(old(H), H, i) && forall x :: x in H ==> x in old(H) || fresh(x)
      ensures Valid() && At(i, lev, parent, h, startGen) && Stale(H, i, lev, h, startGen) == 0
      ensures ViewKept(old(H), H, old(L), L, Top(i, parent), hash)
    {
      var rn, copies := Renewed(main, startGen);
      i.main := rn;
      Renewal(i, lev, parent, h, rn, copies, startGen);
    }

    /**
     * The ghost side of a renewal of `i`'s C-node: the mirror takes in the
     * copies, nothing below the reporting node changes, and the I-node
     * below `i` on the path of `h` is now of generation `startGen`.
     */
    ghost method Renewal(i: INode<V>, lev: nat, parent: INode?<V>, h: bv64,
                         rn: Main<V>, copies: map<INode<V>, INode<V>>, startGen: Generation?)
      requires HeapOK(H, L, hash) && root in H && root in L && L[root] == []
      requires At(i, lev, parent, h, startGen) && H[i].CNode? && i.main == rn
      requires forall x :: x in H && x != i ==> x.main == H[x]
      requires RenewedFrom(rn, H[i], startGen, copies)
      requires forall y :: y in copies ==> y !in H && y != i && y.gen == startGen
      requires forall y :: y in copies && copies[y] in H ==> y.main == H[copies[y]]
      modifies this`H, this`L
      ensures KeptBut(old(H), H, i)
      ensures forall x :: x in H ==> x in old(H) || x in copies
      ensures Valid() && At(i, lev, parent, h, startGen) && Stale(H, i, lev, h, startGen) == 0
      ensures ViewKept(old(H), H, old(L), L, Top(i, parent), hash)
    {
      var Hn, Ln := RenewalView(H, L, hash, i, lev, rn, copies, startGen);
      PathsKept(H, L, Hn, Ln, hash, i, lev, parent, h);
      RenewingMirror(H, Hn, i, copies);
      RenewedFresh(Hn, i, lev, h, rn, H[i], copies, startGen);
      Commit(Hn, Ln);
    }

    /**
     * branchsnode: a leaf with the same key is replaced by the new entry;
     * a leaf with another key becomes a new I-node holding both.
     */
    method BranchSNode(main: Main<V>, sn: Entry<V>, i: INode<V>, e: Entry<V>, lev: nat, parent: INode?<V>,
                       ghost c: bv6, pos: nat)
      requires Valid() && LeafAt(H, L, i, lev, e, sn, c, pos) && H[i] == main && EntryOK(hash, e, L[i])
      requires parent != null ==> W <= lev && Below(H, L, parent, i, lev - W, Chunk(e.hash, lev - W), e.hash)
      modifies this`H, this`L, i
      ensures Valid() && LabelsKept(old(L), L) && Unchanged(old(H), H, old(L), old(L)[Top(i, parent)])
      ensures Rel(old(H), H, Top(i, parent), 6 * |old(L)[Top(i, parent)]|, hash, e.key, Some(e.value))
      ensures KeptBut(old(H), H, i)
      ensures forall x :: x in H ==> x in old(H) || fresh(x)
    {
      if sn.key == e.key {
        var ncn := Updated(main, pos, Leaf(e), i.gen);
        i.main := ncn;
        Swapped(i, lev, parent, e, sn, c, pos, ncn);
        return;
      }
      ghost var rn, copies, nm, made, nin := Branched(H, i, main, sn, e, lev, pos);
      Grown(i, lev, parent, e, sn, c, pos, rn, copies, nm, made, nin);
    }

    /** The ghost side of branchsnode's same-key write: the mirror takes in the updated C-node. */
    ghost method Swapped(i: INode<V>, lev: nat, parent: INode?<V>, e: Entry<V>, sn: Entry<V>, c: bv6, pos: nat, m: Main<V>)
      requires HeapOK(H, L, hash) && root in H && root in L && L[root] == []
      requires LeafAt(H, L, i, lev, e, sn, c, pos) && EntryOK(hash, e, L[i]) && sn.key == e.key
      requires parent != null ==> W <= lev && Below(H, L, parent, i, lev - W, Chunk(e.hash, lev - W), e.hash)
      requires forall x :: x in H && x != i ==> x.main == H[x]
      requires m == Updated(H[i], pos, Leaf(e), i.gen) && i.main == m
      modifies this`H, this`L
      ensures KeptBut(old(H), H, i)
      ensures H.Keys == old(H).Keys
      ensures Valid() && LabelsKept(old(L), L) && Unchanged(old(H), H, old(L), old(L)[Top(i, parent)])
      ensures Rel(old(H), H, Top(i, parent), 6 * |old(L)[Top(i, parent)]|, hash, e.key, Some(e.value))
    {
      SwapWrite(H, L, hash, i, lev, e, sn, c, pos, i.gen, m);
      LiftUp(H, L, H[i := m], L, hash, i, lev, parent, e.key, Some(e.value), true);
      KeptButWrite(H, i, m);
      MirrorWrite(H, i, m);
      Commit(H[i := m], L);
    }

    /** The ghost side of branchsnode's split: the mirror takes in the renewal and the new I-nodes. */
    ghost method Grown(i: INode<V>, lev: nat, parent: INode?<V>, e: Entry<V>, sn: Entry<V>, c: bv6, pos: nat,
                       rn: Main<V>, copies: map<INode<V>, INode<V>>, nm: Main<V>, made: map<INode<V>, Main<V>>,
                       nin: INode<V>)
      requires HeapOK(H, L, hash) && root in H && root in L && L[root] == []
      requires LeafAt(H, L, i, lev, e, sn, c, pos) && EntryOK(hash, e, L[i]) && sn.key != e.key
      requires parent != null ==> W <= lev && Below(H, L, parent, i, lev - W, Chunk(e.hash, lev - W), e.hash)
      requires forall x :: x in H && x != i ==> x.main == H[x]
      requires H[i].gen == i.gen ==> rn == H[i] && copies == map[]
      requires H[i].gen != i.gen ==> RenewedFrom(rn, H[i], i.gen, copies)
      requires forall y :: y in copies ==> y !in H && y != i
      requires forall y :: y in copies && copies[y] in H ==> y.main == H[copies[y]]
      requires SplitShape(made, nm, sn, sn.hash, e, e.hash, lev + W, i.gen)
      requires forall j :: j in made ==> j !in H && j !in copies && j != nin && j.main == made[j]
      requires nin !in H && nin !in copies && nin.main == nm
      requires i.main == Updated(rn, pos, Ind(nin), i.gen)
      modifies this`H, this`L
      ensures KeptBut(old(H), H, i)
      ensures forall x :: x in H ==> x in old(H) || x in copies || x == nin || x in made
      ensures Valid() && LabelsKept(old(L), L) && Unchanged(old(H), H, old(L), old(L)[Top(i, parent)])
      ensures Rel(old(H), H, Top(i, parent), 6 * |old(L)[Top(i, parent)]|, hash, e.key, Some(e.value))
    {
      var Hn, Ln := SplitView(H, L, hash, i, lev, e, sn, c, pos, i.gen, rn, copies, nm, made, nin);
      LiftUp(H, L, Hn, Ln, hash, i, lev, parent, e.key, Some(e.value), true);
      GrewMirror(H, Hn, i, copies, nin, made);
      Commit(Hn, Ln);
    }

    /** The mirror takes a new heap and labels in which every I-node holds its main node. */
    ghost method Commit(Hn: Heap<V>, Ln: Labels<V>)
      requires root in Hn && root in Ln && Ln[root] == [] && HeapOK(Hn, Ln, hash)
      requires forall x :: x in Hn ==> x.main == Hn[x]
      modifies this`H, this`L
      ensures H == Hn && L == Ln && Valid()
    {
      H, L := Hn, Ln;
    }

    /** insert: retry iinsert from the root until it succeeds. */
    method InsertEntry(e: Entry<V>)
      requires Valid() && !readOnly && e.hash == hash(e.key)
      modifies this`H, this`L, H.Keys
      ensures Valid() && LabelsKept(old(L), L)
      ensures Rel(old(H), H, root, 0, hash, e.key, Some(e.value))
      ensures GenKept(old(H), H, root.gen)
      ensures forall x :: x in H ==> x in old(H) || fresh(x)
      decreases Tomb(H, root, 0, e.hash)
    {
      var r := root;
      var ok := IInsert(r, e, 0, null, r.gen);
      if !ok {
        ghost var H1 := H;
        InsertEntry(e);
        SameThenRel(old(H), H1, H, root, 0, hash, e.key, Some(e.value));
        GenKeptTrans(old(H), H1, H, root.gen);
      }
    }

    /** Insert: bind `k` to `v`, replacing any earlier binding; a read-only trie refuses. */
    method Insert(k: Key, v: V)
      requires Valid() && !readOnly
      modifies this`H, this`L, H.Keys
      ensures Valid()
      ensures forall k' :: Get(k') == if k' == k then Some(v) else old(Get(k'))
      ensures forall x :: x in old(H) && x.gen != root.gen ==> x.main == old(x.main)
      ensures forall x :: x in H ==> x in old(H) || fresh(x)
    {
      InsertEntry(Entry(k, v, hash(k)));
    }

    // ---------------------------------------------------------------------
    // remove
    // ---------------------------------------------------------------------

    /**
     * iremove: remove one binding of `k` (hash `h`) below `i`, answering
     * what `k` found there; false when a tomb had to be cleaned first.
     */
    method IRemove(i: INode<V>, k: Key, h: bv64, lev: nat, parent: INode?<V>, startGen: Generation?)
      returns (res: Option<V>, ok: bool)
      requires Valid() && !readOnly && h == hash(k) && At(i, lev, parent, h, startGen)
      modifies this`H, this`L, H.Keys
      ensures Valid() && LabelsKept(old(L), L)
      ensures Unchanged(old(H), H, old(L), old(L)[Top(i, parent)])
      ensures ok ==> res == Find(old(H), i, lev, k, h)
      ensures ok ==> Rel(old(H), H, Top(i, parent), 6 * |old(L)[Top(i, parent)]|, hash, k, Shadow(old(H), i, lev, k, h))
      ensures !ok ==> Retry(old(H), H, Top(i, parent), 6 * |old(L)[Top(i, parent)]|, hash, h)
      ensures GenKept(old(H), H, root.gen)
      ensures forall x :: x in H ==> x in old(H) || fresh(x)
      decreases Exp2 + W - lev, Stale(H, i, lev, h, startGen), 4
    {
      assert NodeOK(H, L, hash, i);
      var main := i.main;
      match main
      case CNode(_, _, _) =>
        res, ok := CRemove(main, i, k, h, lev, parent, startGen);
      case TNode(_) =>
        ghost var H0 := H;
        Clean(parent, lev - W, lev - W, h, i, Chunk(h, lev - W));
        KeptGen(H0, H, parent, root.gen);
        res, ok := None, false;
      case LNode(l) =>
        ghost var H0 := H;
        i.main := LRemovedNode(l, k);
        res := LLookup(l, k);
        ListRemoved(i, lev, parent, k);
        KeptGen(H0, H, i, root.gen);
        ok := true;
    }

    /** The ghost side of iremove's write at an L-node: the mirror takes in the shorter list or the tomb. */
    ghost method ListRemoved(i: INode<V>, lev: nat, parent: INode?<V>, k: Key)
      requires HeapOK(H, L, hash) && root in H && root in L && L[root] == []
      requires At(i, lev, parent, hash(k), i.gen) && H[i].LNode? && i.main == LRemovedNode(H[i].l, k)
      requires forall x :: x in H && x != i ==> x.main == H[x]
      modifies this`H, this`L
      ensures KeptBut(old(H), H, i) && H.Keys == old(H).Keys
      ensures Valid() && L == old(L)
      ensures Find(old(H), i, lev, k, hash(k)) == LLookup(old(H)[i].l, k)
      ensures Unchanged(old(H), H, L, L[Top(i, parent)])
      ensures Rel(old(H), H, Top(i, parent), 6 * |L[Top(i, parent)]|, hash, k, Shadow(old(H), i, lev, k, hash(k)))
    {
      var Hn := LRemoveView(H, L, hash, i, lev, parent, k);
      KeptButWrite(H, i, LRemovedNode(H[i].l, k));
      MirrorWrite(H, i, LRemovedNode(H[i].l, k));
      Commit(Hn, L);
    }

    /** iremove at a C-node: by the chunk's bit and the kind of branch under it. */
    method CRemove(main: Main<V>, i: INode<V>, k: Key, h: bv64, lev: nat, parent: INode?<V>, startGen: Generation?)
      returns (res: Option<V>, ok: bool)
      requires Valid() && !readOnly && h == hash(k) && At(i, lev, parent, h, startGen)
      requires main.CNode? && H[i] == main
      modifies this`H, this`L, H.Keys
      ensures Valid() && LabelsKept(old(L), L)
      ensures Unchanged(old(H), H, old(L), old(L)[Top(i, parent)])
      ensures ok ==> res == Find(old(H), i, lev, k, h)
      ensures ok ==> Rel(old(H), H, Top(i, parent), 6 * |old(L)[Top(i, parent)]|, hash, k, Shadow(old(H), i, lev, k, h))
      ensures !ok ==> Retry(old(H), H, Top(i, parent), 6 * |old(L)[Top(i, parent)]|, hash, h)
      ensures GenKept(old(H), H, root.gen)
      ensures forall x :: x in H ==> x in old(H) || fresh(x)
      decreases Exp2 + W - lev, Stale(H, i, lev, h, startGen), 3
    {
      CNodeDepth(H, L, hash, i);
      var bmp := main.bmp;
      var flag, pos, present := Probe(h, lev, bmp);
      if !present {
        NoBitNone(H, L, hash, i, lev, parent, k);
        return None, true;
      }
      BranchAt(H, L, hash, i, Chunk(h, lev));
      match main.arr[pos]
      case Ind(inode) =>
        res, ok := RemoveInd(main, inode, i, k, h, lev, parent, startGen);
      case Leaf(sn) =>
        LeafFound(H, L, hash, i, lev, parent, k, sn, pos);
        if sn.key != k {
          return None, true;
        }
        res := RemoveLeaf(main, sn, i, k, h, lev, parent, flag, pos);
        ok := true;
    }

    /** iremove at an I-node: one level down if it is of the operation's generation, else after a renewal. */
    method RemoveInd(main: Main<V>, inode: INode<V>, i: INode<V>, k: Key, h: bv64, lev: nat, parent: INode?<V>,
                     startGen: Generation?) returns (res: Option<V>, ok: bool)
      requires Valid() && !readOnly && h == hash(k) && At(i, lev, parent, h, startGen)
      requires main.CNode? && H[i] == main && lev < Exp2 && ChildAt(H, i, Chunk(h, lev), inode)
      modifies this`H, this`L, H.Keys
      ensures Valid() && LabelsKept(old(L), L)
      ensures Unchanged(old(H), H, old(L), old(L)[Top(i, parent)])
      ensures ok ==> res == Find(old(H), i, lev, k, h)
      ensures ok ==> Rel(old(H), H, Top(i, parent), 6 * |old(L)[Top(i, parent)]|, hash, k, Shadow(old(H), i, lev, k, h))
      ensures !ok ==> Retry(old(H), H, Top(i, parent), 6 * |old(L)[Top(i, parent)]|, hash, h)
      ensures GenKept(old(H), H, root.gen)
      ensures forall x :: x in H ==> x in old(H) || fresh(x)
      decreases Exp2 + W - lev, Stale(H, i, lev, h, startGen), 2
    {
      if startGen == inode.gen {
        res, ok := RemoveDescend(main, inode, i, k, h, lev, parent, startGen);
      } else {
        res, ok := RemoveRenew(main, inode, i, k, h, lev, parent, startGen);
      }
    }

    /** iremove at an I-node of the operation's generation: remove one level down. */
    method RemoveDescend(main: Main<V>, inode: INode<V>, i: INode<V>, k: Key, h: bv64, lev: nat, parent: INode?<V>,
                         startGen: Generation?) returns (res: Option<V>, ok: bool)
      requires Valid() && !readOnly && h == hash(k) && At(i, lev, parent, h, startGen)
      requires main.CNode? && H[i] == main && lev < Exp2 && ChildAt(H, i, Chunk(h, lev), inode)
      requires startGen == inode.gen
      modifies this`H, this`L, H.Keys
      ensures Valid() && LabelsKept(old(L), L)
      ensures Unchanged(old(H), H, old(L), old(L)[Top(i, parent)])
      ensures ok ==> res == Find(old(H), i, lev, k, h)
      ensures ok ==> Rel(old(H), H, Top(i, parent), 6 * |old(L)[Top(i, parent)]|, hash, k, Shadow(old(H), i, lev, k, h))
      ensures !ok ==> Retry(old(H), H, Top(i, parent), 6 * |old(L)[Top(i, parent)]|, hash, h)
      ensures GenKept(old(H), H, root.gen)
      ensures forall x :: x in H ==> x in old(H) || fresh(x)
      decreases Exp2 + W - lev, Stale(H, i, lev, h, startGen), 0
    {
      ghost var H0, L0 := H, L;
      CNodeDepth(H, L, hash, i);
      BranchAt(H, L, hash, i, Chunk(h, lev));
      OnPathExtend(h, L[i]);
      PathDown(H, i, inode, lev, h);
      res, ok := IRemove(inode, k, h, lev + W, i, startGen);
      LiftUp(H0, L0, H, L, hash, i, lev, parent, k, Shadow(H0, i, lev, k, h), ok);
    }

    /** iremove at an I-node of an older generation: renew `i`'s C-node, then retry at `i`. */
    method RemoveRenew(main: Main<V>, inode: INode<V>, i: INode<V>, k: Key, h: bv64, lev: nat, parent: INode?<V>,
                       startGen: Generation?) returns (res: Option<V>, ok: bool)
      requires Valid() && !readOnly && h == hash(k) && At(i, lev, parent, h, startGen)
      requires main.CNode? && H[i] == main && lev < Exp2 && ChildAt(H, i, Chunk(h, lev), inode)
      requires startGen != inode.gen
      modifies this`H, this`L, H.Keys
      ensures Valid() && LabelsKept(old(L), L)
      ensures Unchanged(old(H), H, old(L), old(L)[Top(i, parent)])
      ensures ok ==> res == Find(old(H), i, lev, k, h)
      ensures ok ==> Rel(old(H), H, Top(i, parent), 6 * |old(L)[Top(i, parent)]|, hash, k, Shadow(old(H), i, lev, k, h))
      ensures !ok ==> Retry(old(H), H, Top(i, parent), 6 * |old(L)[Top(i, parent)]|, hash, h)
      ensures GenKept(old(H), H, root.gen)
      ensures forall x :: x in H ==> x in old(H) || fresh(x)
      decreases Exp2 + W - lev, Stale(H, i, lev, h, startGen), 0
    {
      ghost var H0, L0 := H, L;
      StaleChild(H, i, lev, h, startGen, inode);
      RenewAt(main, i, lev, parent, startGen, h);
      KeptGen(H0, H, i, root.gen);
      ghost var Hr, Lr := H, L;
      res, ok := IRemove(i, k, h, lev, parent, startGen);
      GenKeptTrans(H0, Hr, H, root.gen);
      RemovedThroughRenewal(H0, Hr, H, L0, Lr, L, hash, i, lev, parent, k, ok);
    }

    /**
     * iremove at a leaf with the key: `i` takes its C-node without the leaf,
     * contracted; when that leaves a tomb below a parent, cleanParent folds
     * the tomb into the parent.
     */
    method RemoveLeaf(main: Main<V>, sn: Entry<V>, i: INode<V>, k: Key, h: bv64, lev: nat, parent: INode?<V>,
                      flag: bv64, pos: nat) returns (res: Option<V>)
      requires Valid() && !readOnly && h == hash(k) && At(i, lev, parent, h, i.gen)
      requires main.CNode? && H[i] == main && Has(main.bmp, Chunk(h, lev)) && flag == Flag(Chunk(h, lev))
      requires pos == CountFrom(main.bmp, Chunk(h, lev) as nat) && pos < |main.arr| && main.arr[pos] == Leaf(sn)
      requires sn.key == k && sn.hash == h
      modifies this`H, this`L, H.Keys
      ensures Valid() && L == old(L) && H.Keys == old(H).Keys
      ensures Unchanged(old(H), H, L, L[Top(i, parent)])
      ensures res == Some(sn.value)
      ensures Rel(old(H), H, Top(i, parent), 6 * |L[Top(i, parent)]|, hash, k, None)
      ensures GenKept(old(H), H, root.gen)
    {
      ghost var H0 := H;
      var ncn := Removed(main, pos, flag, i.gen);
      i.main := ToContracted(ncn, lev);
      Unleafed(i, lev, parent, sn, ncn, main, flag, pos);
      KeptGen(H0, H, i, root.gen);
      ghost var H1 := H;
      FoldTomb(i, parent, h, lev);
      RelThenKept(H0, H1, H, L, Top(i, parent), 6 * |L[Top(i, parent)]|, hash, k, None, root.gen);
      res := Some(sn.value);
    }

    /** The tail of iremove's leaf removal: a tomb left below a parent is folded into it by cleanParent. */
    method FoldTomb(i: INode<V>, parent: INode?<V>, h: bv64, lev: nat)
      requires Valid() && i in L && lev == 6 * |L[i]|
      requires parent != null ==> W <= lev && parent in H && lev - W == 6 * |L[parent]| && parent.gen == root.gen
      modifies this`H, this`L, parent
      ensures Valid() && L == old(L) && H.Keys == old(H).Keys && GenKept(old(H), H, root.gen)
      ensures Top(i, parent) in L && Unchanged(old(H), H, L, L[Top(i, parent)])
      ensures Same(old(H), H, Top(i, parent), 6 * |L[Top(i, parent)]|, hash)
      ensures parent == null ==> H == old(H)
      ensures parent != null ==> H == ParentFolded(old(H), parent, i, old(i.main), h, lev - W)
    {
      if parent != null {
        var m := i.main;
        if m.TNode? {
          ghost var H0 := H;
          CleanParent(parent, i, h, lev - W);
          KeptGen(H0, H, parent, root.gen);
        }
      }
    }

    /** The ghost side of removed + toContracted: the mirror takes in the smaller C-node or the tomb. */
    ghost method Unleafed(i: INode<V>, lev: nat, parent: INode?<V>, sn: Entry<V>, ncn: Main<V>, main: Main<V>,
                          flag: bv64, pos: nat)
      requires HeapOK(H, L, hash) && root in H && root in L && L[root] == []
      requires At(i, lev, parent, sn.hash, i.gen) && sn.hash == hash(sn.key) && H[i] == main && main.CNode?
      requires Has(main.bmp, Chunk(sn.hash, lev)) && flag == Flag(Chunk(sn.hash, lev))
      requires pos == CountFrom(main.bmp, Chunk(sn.hash, lev) as nat) && pos < |main.arr| && main.arr[pos] == Leaf(sn)
      requires ncn.CNode? && ncn.bmp == main.bmp ^ flag && |ncn.arr| == |main.arr| - 1
      requires forall j :: 0 <= j < pos ==> ncn.arr[j] == main.arr[j]
      requires forall j :: pos <= j < |ncn.arr| ==> ncn.arr[j] == main.arr[j + 1]
      requires i.main == ToContracted(ncn, lev)
      requires forall x :: x in H && x != i ==> x.main == H[x]
      modifies this`H, this`L
      ensures KeptBut(old(H), H, i) && H.Keys == old(H).Keys
      ensures Valid() && L == old(L)
      ensures Unchanged(old(H), H, L, L[Top(i, parent)])
      ensures Rel(old(H), H, Top(i, parent), 6 * |L[Top(i, parent)]|, hash, sn.key, None)
    {
      RemovedSplice(main, ncn, Chunk(sn.hash, lev), flag, pos, sn);
      var Hn := LeafRemoveView(H, L, hash, i, lev, parent, sn, ncn);
      KeptButWrite(H, i, ToContracted(ncn, lev));
      MirrorWrite(H, i, ToContracted(ncn, lev));
      Commit(Hn, L);
    }

    /**
     * cleanParent: when `i`, the branch of `p` for hash `hc` at level `lev`,
     * holds a tomb, `p` takes its C-node with the tomb's leaf in place of
     * `i`, contracted.
     */
    method CleanParent(p: INode<V>, i: INode<V>, hc: bv64, lev: nat)
      requires Valid() && p in H && lev == 6 * |L[p]|
      modifies this`H, this`L, p
      ensures Valid() && L == old(L) && H.Keys == old(H).Keys && KeptBut(old(H), H, p)
      ensures Unchanged(old(H), H, L, L[p]) && Same(old(H), H, p, lev, hash)
      ensures H == ParentFolded(old(H), p, i, old(i.main), hc, lev)
    {
      var n := i.main;
      var pn := p.main;
      ghost var H0 := H;
      assert pn == H0[p];
      if pn.CNode? {
        var bmp := pn.bmp;
        var flag, pos, present := Probe(hc, lev, bmp);
        if present {
          CNodeDepth(H, L, hash, p);
          var sub := pn.arr[pos];
          if sub.Ind? && sub.i == i && n.TNode? {
            BranchesIn(H, L, hash, p);
            assert i in H && n == H0[i];
            p.main := ToContracted(Updated(pn, pos, Resurrect(i, n), i.gen), lev);
            ParentCleaned(p, lev, i, pos);
          }
        }
      }
    }

    /** The ghost side of cleanParent's write. */
    ghost method ParentCleaned(p: INode<V>, lev: nat, i: INode<V>, pos: nat)
      requires HeapOK(H, L, hash) && root in H && root in L && L[root] == []
      requires p in H && lev == 6 * |L[p]| && H[p].CNode? && pos < |H[p].arr| && H[p].arr[pos] == Ind(i)
      requires i in H && H[i].TNode?
      requires p.main == ToContracted(Updated(H[p], pos, Resurrect(i, H[i]), i.gen), lev)
      requires forall x :: x in H && x != p ==> x.main == H[x]
      modifies this`H, this`L
      ensures KeptBut(old(H), H, p) && H.Keys == old(H).Keys
      ensures Valid() && L == old(L)
      ensures Unchanged(old(H), H, L, L[p]) && Same(old(H), H, p, lev, hash)
      ensures H == old(H)[p := ToContracted(Updated(old(H)[p], pos, Resurrect(i, old(H)[i]), i.gen), lev)]
    {
      var Hn := CleanParentView(H, L, hash, p, lev, i, pos, i.gen);
      KeptButWrite(H, p, ToContracted(Updated(H[p], pos, Resurrect(i, H[i]), i.gen), lev));
      MirrorWrite(H, p, ToContracted(Updated(H[p], pos, Resurrect(i, H[i]), i.gen), lev));
      Commit(Hn, L);
    }

    /** remove: retry iremove from the root until it succeeds. */
    method RemoveKey(k: Key, h: bv64) returns (res: Option<V>)
      requires Valid() && !readOnly && h == hash(k)
      modifies this`H, this`L, H.Keys
      ensures Valid() && LabelsKept(old(L), L)
      ensures res == Find(old(H), root, 0, k, h)
      ensures Rel(old(H), H, root, 0, hash, k, Shadow(old(H), root, 0, k, h))
      ensures GenKept(old(H), H, root.gen)
      ensures forall x :: x in H ==> x in old(H) || fresh(x)
      decreases Tomb(H, root, 0, h)
    {
      var r := root;
      var ok;
      res, ok := IRemove(r, k, h, 0, null, r.gen);
      if !ok {
        ghost var H1 := H;
        res := RemoveKey(k, h);
        SameThenRel(old(H), H1, H, root, 0, hash, k, Shadow(H1, root, 0, k, h));
        GenKeptTrans(old(H), H1, H, root.gen);
      }
    }

    /**
     * Remove: drop the binding of `k`, answering the value it had. Only a
     * collision list can hold an older duplicate of `k`, which then shows.
     */
    method Remove(k: Key) returns (res: Option<V>)
      requires Valid() && !readOnly
      modifies this`H, this`L, H.Keys
      ensures Valid() && res == old(Get(k))
      ensures forall k' :: Get(k') == if k' == k then old(Rest(k)) else old(Get(k'))
      ensures forall x :: x in old(H) && x.gen != root.gen ==> x.main == old(x.main)
      ensures forall x :: x in H ==> x in old(H) || fresh(x)
    {
      res := RemoveKey(k, hash(k));
    }

    /** What `k` maps to once one binding of it is removed. */
    ghost function Rest(k: Key): Option<V>
      reads this
    {
      Shadow(H, root, 0, k, hash(k))
    }

    // ---------------------------------------------------------------------
    // snapshot and clear
    // ---------------------------------------------------------------------

    /**
     * rdcssRoot (through casRoot) on one thread: the root becomes `nv` and
     * the view becomes the one `nv` stands for; a read-only trie refuses.
     */
    method RdcssRoot(nv: INode<V>, ghost Hn: Heap<V>, ghost Ln: Labels<V>)
      requires !readOnly && nv in Hn && nv in Ln && Ln[nv] == [] && HeapOK(Hn, Ln, hash)
      requires forall x :: x in Hn ==> x.main == Hn[x]
      modifies this`root, this`H, this`L
      ensures root == nv && H == Hn && L == Ln && Valid()
    {
      root := nv;
      H, L := Hn, Ln;
    }

    /**
     * Snapshot(ReadWrite): the root is replaced by a copy in a fresh
     * generation, and the snapshot gets another copy in another fresh
     * generation. Both stand for the map as it was, and neither can write an
     * I-node the other still reads.
     */
    method SnapshotReadWrite() returns (s: Ctrie<V>)
      requires Valid() && !readOnly
      modifies this`root, this`H, this`L
      ensures Valid() && s.Valid() && fresh(s) && s.readOnly == readOnly && s.hash == hash
      ensures forall k :: Get(k) == old(Get(k)) && s.Get(k) == old(Get(k))
      ensures fresh(root.gen) && fresh(s.root.gen) && root.gen != s.root.gen
      ensures Shielded(this, s) && Shielded(s, this)
      ensures forall x :: x in H ==> x in old(H) || fresh(x)
    {
      var r := root;
      var copy, Hc, Lc := FreshRootCopy(r, H, L, hash);
      RdcssRoot(copy, Hc, Lc);
      var copy', Hs, Ls := FreshRootCopy(r, old(H), old(L), hash);
      s := new Ctrie.Make(copy', hash, readOnly, Hs, Ls);
    }

    /**
     * Snapshot(ReadOnly) as the stable, point-in-time snapshot ctrie.go:81
     * promises: a read-only trie is its own snapshot; a writable one moves on
     * to a root copy in a fresh generation and the snapshot keeps the old
     * root, which it then no longer writes.
     */
    method SnapshotReadOnly() returns (s: Ctrie<V>)
      requires Valid()
      modifies this`root, this`H, this`L
      ensures Valid() && s.Valid() && s.readOnly && s.hash == hash
      ensures forall k :: Get(k) == old(Get(k)) && s.Get(k) == old(Get(k))
      ensures s.root == old(root) && s.H == old(H) && s.L == old(L)
      ensures readOnly ==> s == this && root == old(root) && H == old(H)
      ensures !readOnly ==> fresh(s) && fresh(root.gen) && Shielded(this, s)
      ensures forall x :: x in H ==> x in old(H) || fresh(x)
    {
      if readOnly {
        return this;
      }
      var r := root;
      var copy, Hc, Lc := FreshRootCopy(r, H, L, hash);
      RdcssRoot(copy, Hc, Lc);
      s := new Ctrie.Make(r, hash, true, old(H), old(L));
    }

    /**
     * Snapshot(ReadOnly) as the source writes it: the snapshot is handed the
     * root read after the swap, which is the new root this trie goes on
     * writing through.
     */
    method SnapshotReadOnlyAsWritten() returns (s: Ctrie<V>)
      requires Valid()
      modifies this`root, this`H, this`L
      ensures Valid() && s.Valid() && s.readOnly && s.hash == hash
      ensures forall k :: Get(k) == old(Get(k)) && s.Get(k) == old(Get(k))
      ensures readOnly ==> s == this && root == old(root) && H == old(H)
      ensures !readOnly ==> fresh(s) && s.root == root && fresh(root.gen)
      ensures forall x :: x in H ==> x in old(H) || fresh(x)
    {
      if readOnly {
        return this;
      }
      var r := root;
      var copy, Hc, Lc := FreshRootCopy(r, H, L, hash);
      RdcssRoot(copy, Hc, Lc);
      s := new Ctrie.Make(root, hash, true, H, L);
    }

    /** Clear: the root becomes a fresh empty one in a fresh generation; no I-node is written. */
    method Clear()
      requires Valid() && !readOnly
      modifies this`root, this`H, this`L
      ensures Valid() && fresh(root) && fresh(root.gen)
      ensures forall k :: Get(k) == None
    {
      var gen := new Generation();
      var nr := new INode(CNode(0, [], gen), gen);
      EmptyRoot(map[nr := CNode(0, [], gen)], map[nr := []], hash, nr, gen);
      RdcssRoot(nr, map[nr := CNode(0, [], gen)], map[nr := []]);
    }

    // ---------------------------------------------------------------------
    // lookup
    // ---------------------------------------------------------------------

    /**
     * Where a read-only descent stands: as `At`, without the generations,
     * which a read-only trie never compares.
     */
    ghost predicate Placed(i: INode<V>, lev: nat, parent: INode?<V>, h: bv64)
      reads this
    {
      i in H && i in L && lev == 6 * |L[i]| && OnPath(h, L[i]) &&
      (parent == null ==> i == root) &&
      (parent != null ==> W <= lev && Below(H, L, parent, i, lev - W, Chunk(h, lev - W), h))
    }

    /**
     * ilookup: what `k` (hash `h`) finds below `i`; false when a tomb had to
     * be cleaned first. A read-only trie writes nothing and always succeeds.
     */
    method ILookup(i: INode<V>, k: Key, h: bv64, lev: nat, parent: INode?<V>, startGen: Generation?)
      returns (res: Option<V>, ok: bool)
      requires Valid() && h == hash(k) && Placed(i, lev, parent, h)
      requires !readOnly ==> At(i, lev, parent, h, startGen)
      modifies this`H, this`L, H.Keys
      ensures Valid() && LabelsKept(old(L), L)
      ensures readOnly ==> ok && H == old(H) && L == old(L)
      ensures Unchanged(old(H), H, old(L), old(L)[Top(i, parent)])
      ensures ok ==> res == Find(old(H), i, lev, k, h)
      ensures ok ==> Same(old(H), H, Top(i, parent), 6 * |old(L)[Top(i, parent)]|, hash)
      ensures !ok ==> Retry(old(H), H, Top(i, parent), 6 * |old(L)[Top(i, parent)]|, hash, h)
      ensures GenKept(old(H), H, root.gen)
      ensures forall x :: x in H ==> x in old(H) || fresh(x)
      decreases Exp2 + W - lev, Stale(H, i, lev, h, startGen), 4
    {
      assert NodeOK(H, L, hash, i);
      var main := i.main;
      match main
      case CNode(_, _, _) =>
        res, ok := CLookup(main, i, k, h, lev, parent, startGen);
      case TNode(tn) =>
        res, ok := CleanReadOnly(tn, lev, parent, k, h, i);
      case LNode(l) =>
        res, ok := LLookup(l, k), true;
    }

    /** ilookup at a C-node: by the chunk's bit and the kind of branch under it. */
    method CLookup(main: Main<V>, i: INode<V>, k: Key, h: bv64, lev: nat, parent: INode?<V>, startGen: Generation?)
      returns (res: Option<V>, ok: bool)
      requires Valid() && h == hash(k) && Placed(i, lev, parent, h)
      requires !readOnly ==> At(i, lev, parent, h, startGen)
      requires main.CNode? && H[i] == main
      modifies this`H, this`L, H.Keys
      ensures Valid() && LabelsKept(old(L), L)
      ensures readOnly ==> ok && H == old(H) && L == old(L)
      ensures Unchanged(old(H), H, old(L), old(L)[Top(i, parent)])
      ensures ok ==> res == Find(old(H), i, lev, k, h)
      ensures ok ==> Same(old(H), H, Top(i, parent), 6 * |old(L)[Top(i, parent)]|, hash)
      ensures !ok ==> Retry(old(H), H, Top(i, parent), 6 * |old(L)[Top(i, parent)]|, hash, h)
      ensures GenKept(old(H), H, root.gen)
      ensures forall x :: x in H ==> x in old(H) || fresh(x)
      decreases Exp2 + W - lev, Stale(H, i, lev, h, startGen), 3
    {
      CNodeDepth(H, L, hash, i);
      var bmp := main.bmp;
      var flag, pos, present := Probe(h, lev, bmp);
      if !present {
        NoBitNone(H, L, hash, i, lev, parent, k);
        return None, true;
      }
      res, ok := LookupBranch(main, i, k, h, lev, parent, startGen, pos);
    }

    /** ilookup when the chunk's bit is set: by the kind of the branch at `pos`. */
    method LookupBranch(main: Main<V>, i: INode<V>, k: Key, h: bv64, lev: nat, parent: INode?<V>, startGen: Generation?,
                        pos: nat) returns (res: Option<V>, ok: bool)
      requires Valid() && h == hash(k) && Placed(i, lev, parent, h)
      requires !readOnly ==> At(i, lev, parent, h, startGen)
      requires main.CNode? && H[i] == main && lev < Exp2 && Has(main.bmp, Chunk(h, lev))
      requires pos == CountFrom(main.bmp, Chunk(h, lev) as nat)
      modifies this`H, this`L, H.Keys
      ensures Valid() && LabelsKept(old(L), L)
      ensures readOnly ==> ok && H == old(H) && L == old(L)
      ensures Unchanged(old(H), H, old(L), old(L)[Top(i, parent)])
      ensures ok ==> res == Find(old(H), i, lev, k, h)
      ensures ok ==> Same(old(H), H, Top(i, parent), 6 * |old(L)[Top(i, parent)]|, hash)
      ensures !ok ==> Retry(old(H), H, Top(i, parent), 6 * |old(L)[Top(i, parent)]|, hash, h)
      ensures GenKept(old(H), H, root.gen)
      ensures forall x :: x in H ==> x in old(H) || fresh(x)
      decreases Exp2 + W - lev, Stale(H, i, lev, h, startGen), 2
    {
      BranchAt(H, L, hash, i, Chunk(h, lev));
      match main.arr[pos]
      case Ind(inode) =>
        res, ok := LookupInd(main, inode, i, k, h, lev, parent, startGen);
      case Leaf(sn) =>
        LeafFound(H, L, hash, i, lev, parent, k, sn, pos);
        if sn.key == k {
          return Some(sn.value), true;
        }
        return None, true;
    }

    /** ilookup at an I-node: one level down if read-only or of the operation's generation, else after a renewal. */
    method LookupInd(main: Main<V>, inode: INode<V>, i: INode<V>, k: Key, h: bv64, lev: nat, parent: INode?<V>,
                     startGen: Generation?) returns (res: Option<V>, ok: bool)
      requires Valid() && h == hash(k) && Placed(i, lev, parent, h)
      requires !readOnly ==> At(i, lev, parent, h, startGen)
      requires main.CNode? && H[i] == main && lev < Exp2 && ChildAt(H, i, Chunk(h, lev), inode)
      modifies this`H, this`L, H.Keys
      ensures Valid() && LabelsKept(old(L), L)
      ensures readOnly ==> ok && H == old(H) && L == old(L)
      ensures Unchanged(old(H), H, old(L), old(L)[Top(i, parent)])
      ensures ok ==> res == Find(old(H), i, lev, k, h)
      ensures ok ==> Same(old(H), H, Top(i, parent), 6 * |old(L)[Top(i, parent)]|, hash)
      ensures !ok ==> Retry(old(H), H, Top(i, parent), 6 * |old(L)[Top(i, parent)]|, hash, h)
      ensures GenKept(old(H), H, root.gen)
      ensures forall x :: x in H ==> x in old(H) || fresh(x)
      decreases Exp2 + W - lev, Stale(H, i, lev, h, startGen), 1
    {
      if readOnly || startGen == inode.gen {
        res, ok := LookupDescend(main, inode, i, k, h, lev, parent, startGen);
      } else {
        res, ok := LookupRenew(main, inode, i, k, h, lev, parent, startGen);
      }
    }

    /** ilookup at an I-node it may enter (read-only, or of the operation's generation): one level down. */
    method LookupDescend(main: Main<V>, inode: INode<V>, i: INode<V>, k: Key, h: bv64, lev: nat, parent: INode?<V>,
                         startGen: Generation?) returns (res: Option<V>, ok: bool)
      requires Valid() && h == hash(k) && Placed(i, lev, parent, h)
      requires !readOnly ==> At(i, lev, parent, h, startGen)
      requires main.CNode? && H[i] == main && lev < Exp2 && ChildAt(H, i, Chunk(h, lev), inode)
      requires readOnly || startGen == inode.gen
      modifies this`H, this`L, H.Keys
      ensures Valid() && LabelsKept(old(L), L)
      ensures readOnly ==> ok && H == old(H) && L == old(L)
      ensures Unchanged(old(H), H, old(L), old(L)[Top(i, parent)])
      ensures ok ==> res == Find(old(H), i, lev, k, h)
      ensures ok ==> Same(old(H), H, Top(i, parent), 6 * |old(L)[Top(i, parent)]|, hash)
      ensures !ok ==> Retry(old(H), H, Top(i, parent), 6 * |old(L)[Top(i, parent)]|, hash, h)
      ensures GenKept(old(H), H, root.gen)
      ensures forall x :: x in H ==> x in old(H) || fresh(x)
      decreases Exp2 + W - lev, Stale(H, i, lev, h, startGen), 0
    {
      ghost var H0, L0 := H, L;
      CNodeDepth(H, L, hash, i);
      BranchAt(H, L, hash, i, Chunk(h, lev));
      OnPathExtend(h, L[i]);
      PathDown(H, i, inode, lev, h);
      res, ok := ILookup(inode, k, h, lev + W, i, startGen);
      LiftSame(H0, L0, H, L, hash, i, lev, parent, h, ok);
    }

    /** ilookup at an I-node of an older generation: renew `i`'s C-node, then retry at `i`. */
    method LookupRenew(main: Main<V>, inode: INode<V>, i: INode<V>, k: Key, h: bv64, lev: nat, parent: INode?<V>,
                       startGen: Generation?) returns (res: Option<V>, ok: bool)
      requires Valid() && !readOnly && h == hash(k) && At(i, lev, parent, h, startGen)
      requires main.CNode? && H[i] == main && lev < Exp2 && ChildAt(H, i, Chunk(h, lev), inode)
      requires startGen != inode.gen
      modifies this`H, this`L, H.Keys
      ensures Valid() && LabelsKept(old(L), L)
      ensures Unchanged(old(H), H, old(L), old(L)[Top(i, parent)])
      ensures ok ==> res == Find(old(H), i, lev, k, h)
      ensures ok ==> Same(old(H), H, Top(i, parent), 6 * |old(L)[Top(i, parent)]|, hash)
      ensures !ok ==> Retry(old(H), H, Top(i, parent), 6 * |old(L)[Top(i, parent)]|, hash, h)
      ensures GenKept(old(H), H, root.gen)
      ensures forall x :: x in H ==> x in old(H) || fresh(x)
      decreases Exp2 + W - lev, Stale(H, i, lev, h, startGen), 0
    {
      ghost var H0, L0 := H, L;
      StaleChild(H, i, lev, h, startGen, inode);
      RenewAt(main, i, lev, parent, startGen, h);
      KeptGen(H0, H, i, root.gen);
      ghost var Hr, Lr := H, L;
      res, ok := ILookup(i, k, h, lev, parent, startGen);
      GenKeptTrans(H0, Hr, H, root.gen);
      LookedThroughRenewal(H0, Hr, H, L0, Lr, L, hash, i, lev, parent, k, ok);
    }

    /**
     * cleanReadOnly: a read-only trie reads the tomb's entry; a writable one
     * compresses the parent's C-node at the parent's level and retries.
     */
    method CleanReadOnly(tn: Entry<V>, lev: nat, p: INode?<V>, k: Key, h: bv64, ghost i: INode<V>)
      returns (res: Option<V>, ok: bool)
      requires Valid() && h == hash(k) && Placed(i, lev, p, h) && H[i] == TNode(tn)
      requires !readOnly ==> At(i, lev, p, h, root.gen)
      modifies this`H, this`L, p
      ensures Valid() && L == old(L) && H.Keys == old(H).Keys && GenKept(old(H), H, root.gen)
      ensures ok <==> readOnly
      ensures readOnly ==> H == old(H) && res == Find(H, i, lev, k, h)
      ensures !readOnly ==> res == None && Unchanged(old(H), H, L, L[Top(i, p)])
      ensures !readOnly ==> Retry(old(H), H, Top(i, p), 6 * |L[Top(i, p)]|, hash, h)
    {
      assert NodeOK(H, L, hash, i);
      if !readOnly {
        ghost var H0 := H;
        Clean(p, lev - W, lev - W, h, i, Chunk(h, lev - W));
        KeptGen(H0, H, p, root.gen);
        return None, false;
      }
      if tn.hash == h && tn.key == k {
        return Some(tn.value), true;
      }
      return None, true;
    }

    /**
     * cleanReadOnly as the source writes it: the parent is compressed at
     * `lev - 5`, one above the parent's level. Below the root that
     * contracts as the parent's own level would; at the root it contracts
     * a root whose path ends in a collapsing tomb, which the precondition
     * excludes (see RootEntombed).
     */
    method CleanReadOnlyAsWritten(tn: Entry<V>, lev: nat, p: INode?<V>, k: Key, h: bv64, ghost i: INode<V>)
      returns (res: Option<V>, ok: bool)
      requires Valid() && h == hash(k) && Placed(i, lev, p, h) && H[i] == TNode(tn)
      requires !readOnly ==> At(i, lev, p, h, root.gen)
      requires !readOnly && p != null && lev == W ==> !Collapses(H, p, 0, h)
      modifies this`H, this`L, p
      ensures Valid() && L == old(L) && H.Keys == old(H).Keys && GenKept(old(H), H, root.gen)
      ensures ok <==> readOnly
      ensures readOnly ==> H == old(H) && res == Find(H, i, lev, k, h)
      ensures !readOnly ==> res == None && Unchanged(old(H), H, L, L[Top(i, p)])
      ensures !readOnly ==> Retry(old(H), H, Top(i, p), 6 * |L[Top(i, p)]|, hash, h)
    {
      assert NodeOK(H, L, hash, i);
      if !readOnly {
        ghost var H0 := H;
        Clean(p, lev - 5, lev - W, h, i, Chunk(h, lev - W));
        KeptGen(H0, H, p, root.gen);
        return None, false;
      }
      if tn.hash == h && tn.key == k {
        return Some(tn.value), true;
      }
      return None, true;
    }

    /** lookup: retry ilookup from the root until it succeeds. */
    method LookupKey(k: Key, h: bv64) returns (res: Option<V>)
      requires Valid() && h == hash(k)
      modifies this`H, this`L, H.Keys
      ensures Valid() && LabelsKept(old(L), L)
      ensures readOnly ==> H == old(H) && L == old(L)
      ensures res == Find(old(H), root, 0, k, h)
      ensures Same(old(H), H, root, 0, hash)
      ensures GenKept(old(H), H, root.gen)
      ensures forall x :: x in H ==> x in old(H) || fresh(x)
      decreases Tomb(H, root, 0, h)
    {
      var r := root;
      var ok;
      res, ok := ILookup(r, k, h, 0, null, r.gen);
      if !ok {
        ghost var H1 := H;
        res := LookupKey(k, h);
        SameThenSame(old(H), H1, H, root, 0, hash);
        GenKeptTrans(old(H), H1, H, root.gen);
      }
    }

    /**
     * Lookup: the value `k` is bound to. It may renew and clean nodes of the
     * current generation on a writable trie, but the map stays as it was.
     */
    method Lookup(k: Key) returns (res: Option<V>)
      requires Valid()
      modifies this`H, this`L, H.Keys
      ensures Valid() && res == old(Get(k))
      ensures forall k' :: Get(k') == old(Get(k'))
      ensures readOnly ==> H == old(H)
      ensures forall x :: x in old(H) && x.gen != root.gen ==> x.main == old(x.main)
      ensures forall x :: x in H ==> x in old(H) || fresh(x)
    {
      res := LookupKey(k, hash(k));
    }
  }

  /**
   * cleanParent's heap: when the branch of `p`'s C-node for hash `hc` at
   * level `lev` is still `i` and `m`, `i`'s main node, is a tomb, `p` holds
   * that C-node with the tomb's leaf in `i`'s slot, contracted; otherwise
   * nothing changes.
   */
  ghost function ParentFolded<V>(H0: Heap<V>, p: INode<V>, i: INode<V>, m: Main<V>, hc: bv64, lev: nat): Heap<V>
  {
    if p in H0 && H0[p].CNode? && Has(H0[p].bmp, Chunk(hc, lev))
       && CountFrom(H0[p].bmp, Chunk(hc, lev) as nat) < |H0[p].arr|
       && H0[p].arr[CountFrom(H0[p].bmp, Chunk(hc, lev) as nat)] == Ind(i) && m.TNode?
    then H0[p := ToContracted(Updated(H0[p], CountFrom(H0[p].bmp, Chunk(hc, lev) as nat), Resurrect(i, m), i.gen), lev)]
    else H0
  }

  /** clean's write: compressing the C-node above a tomb makes the path of `h` retry closer to a result. */
  lemma CleanView<V>(H0: Heap<V>, L0: Labels<V>, hf: Key -> bv64, p: INode<V>, lev: nat, levp: nat, h: bv64,
                     j: INode<V>, c: bv6)
    returns (Hn: Heap<V>)
    requires HeapOK(H0, L0, hf) && Below(H0, L0, p, j, levp, c, h) && j in H0 && H0[j].TNode?
    requires (lev == 0) == (levp == 0) || !Collapses(H0, p, levp, h)
    ensures H0[p].CNode? && Hn == H0[p := ToContracted(Compressed(H0, H0[p]), lev)]
    ensures HeapOK(Hn, L0, hf) && Unchanged(H0, Hn, L0, L0[p]) && Retry(H0, Hn, p, levp, hf, h)
  {
    BelowPath(H0, L0, p, j, levp, c, h);
    CleanStep(H0, L0, hf, p, levp, lev, h, j);
    Hn := H0[p := ToContracted(Compressed(H0, H0[p]), lev)];
  }

  /** iinsert's write at an L-node, reported at the reporting node. */
  lemma LInsertView<V>(H0: Heap<V>, L0: Labels<V>, hf: Key -> bv64, i: INode<V>, lev: nat, parent: INode?<V>, e: Entry<V>)
    returns (Hn: Heap<V>)
    requires HeapOK(H0, L0, hf) && i in H0 && lev == 6 * |L0[i]| && H0[i].LNode? && EntryOK(hf, e, L0[i])
    requires parent != null ==> W <= lev && Below(H0, L0, parent, i, lev - W, Chunk(e.hash, lev - W), e.hash)
    ensures Hn == H0[i := LNode(LInserted(H0[i].l, e))] && HeapOK(Hn, L0, hf) && LabelsKept(L0, L0)
    ensures Unchanged(H0, Hn, L0, L0[Top(i, parent)])
    ensures Rel(H0, Hn, Top(i, parent), 6 * |L0[Top(i, parent)]|, hf, e.key, Some(e.value))
  {
    Hn := H0[i := LNode(LInserted(H0[i].l, e))];
    LInsertWrite(H0, L0, hf, i, lev, e);
    if parent != null {
      RelUp(H0, L0, Hn, L0, hf, parent, i, lev - W, Chunk(e.hash, lev - W), e.key, Some(e.value));
    }
  }

  /** `i`'s child on the path of `h` is of another generation than `g`. */
  lemma StaleChild<V>(H: Heap<V>, i: INode<V>, lev: nat, h: bv64, g: Generation?, inode: INode<V>)
    requires ChildAt(H, i, Chunk(h, lev), inode) && inode.gen != g
    ensures Stale(H, i, lev, h, g) == 1
  {
  }

  /** A result reported after a renewal that kept every path from `x` is a result from before it. */
  lemma ThroughRenewal<V>(H0: Heap<V>, Hr: Heap<V>, H2: Heap<V>, L0: Labels<V>, Lr: Labels<V>, L2: Labels<V>,
                          hf: Key -> bv64, x: INode<V>, k: Key, nv: Option<V>, ok: bool)
    requires ViewKept(H0, Hr, L0, Lr, x, hf) && OnPath(hf(k), L0[x]) && LabelsKept(Lr, L2) && Unchanged(Hr, H2, Lr, Lr[x])
    requires ok ==> Rel(Hr, H2, x, 6 * |Lr[x]|, hf, k, nv)
    requires !ok ==> Retry(Hr, H2, x, 6 * |Lr[x]|, hf, hf(k))
    ensures LabelsKept(L0, L2) && Unchanged(H0, H2, L0, L0[x])
    ensures ok ==> Rel(H0, H2, x, 6 * |L0[x]|, hf, k, nv)
    ensures !ok ==> Retry(H0, H2, x, 6 * |L0[x]|, hf, hf(k))
  {
    var lev := 6 * |L0[x]|;
    if ok {
      SameThenRel(H0, Hr, H2, x, lev, hf, k, nv);
    } else {
      RetryAfterRenew(H0, Hr, H2, L0, Lr, hf, x, lev, hf(k));
    }
    UnchangedTrans(H0, Hr, H2, L0, Lr, L0[x]);
  }

  /** What iremove finds and removes after a renewal of `i` is what it would have found and removed before it. */
  lemma RemovedThroughRenewal<V>(H0: Heap<V>, Hr: Heap<V>, H2: Heap<V>, L0: Labels<V>, Lr: Labels<V>, L2: Labels<V>,
                                 hf: Key -> bv64, i: INode<V>, lev: nat, parent: INode?<V>, k: Key, ok: bool)
    requires HeapOK(H0, L0, hf) && HeapOK(Hr, Lr, hf) && i in L0 && lev == 6 * |L0[i]|
    requires parent != null ==> W <= lev && Below(H0, L0, parent, i, lev - W, Chunk(hf(k), lev - W), hf(k))
    requires parent != null ==> Below(Hr, Lr, parent, i, lev - W, Chunk(hf(k), lev - W), hf(k))
    requires ViewKept(H0, Hr, L0, Lr, Top(i, parent), hf) && OnPath(hf(k), L0[Top(i, parent)])
    requires LabelsKept(Lr, L2) && Unchanged(Hr, H2, Lr, Lr[Top(i, parent)])
    requires ok ==> Rel(Hr, H2, Top(i, parent), 6 * |Lr[Top(i, parent)]|, hf, k, Shadow(Hr, i, lev, k, hf(k)))
    requires !ok ==> Retry(Hr, H2, Top(i, parent), 6 * |Lr[Top(i, parent)]|, hf, hf(k))
    ensures Find(Hr, i, lev, k, hf(k)) == Find(H0, i, lev, k, hf(k))
    ensures LabelsKept(L0, L2) && Unchanged(H0, H2, L0, L0[Top(i, parent)])
    ensures ok ==> Rel(H0, H2, Top(i, parent), 6 * |L0[Top(i, parent)]|, hf, k, Shadow(H0, i, lev, k, hf(k)))
    ensures !ok ==> Retry(H0, H2, Top(i, parent), 6 * |L0[Top(i, parent)]|, hf, hf(k))
  {
    RenewedFind(H0, L0, Hr, Lr, hf, i, lev, parent, k);
    ThroughRenewal(H0, Hr, H2, L0, Lr, L2, hf, Top(i, parent), k, Shadow(H0, i, lev, k, hf(k)), ok);
  }

  /** What ilookup finds after a renewal of `i` is what it would have found before it. */
  lemma LookedThroughRenewal<V>(H0: Heap<V>, Hr: Heap<V>, H2: Heap<V>, L0: Labels<V>, Lr: Labels<V>, L2: Labels<V>,
                                hf: Key -> bv64, i: INode<V>, lev: nat, parent: INode?<V>, k: Key, ok: bool)
    requires HeapOK(H0, L0, hf) && HeapOK(Hr, Lr, hf) && i in L0 && lev == 6 * |L0[i]|
    requires parent != null ==> W <= lev && Below(H0, L0, parent, i, lev - W, Chunk(hf(k), lev - W), hf(k))
    requires parent != null ==> Below(Hr, Lr, parent, i, lev - W, Chunk(hf(k), lev - W), hf(k))
    requires ViewKept(H0, Hr, L0, Lr, Top(i, parent), hf) && OnPath(hf(k), L0[Top(i, parent)])
    requires LabelsKept(Lr, L2) && Unchanged(Hr, H2, Lr, Lr[Top(i, parent)])
    requires ok ==> Same(Hr, H2, Top(i, parent), 6 * |Lr[Top(i, parent)]|, hf)
    requires !ok ==> Retry(Hr, H2, Top(i, parent), 6 * |Lr[Top(i, parent)]|, hf, hf(k))
    ensures Find(Hr, i, lev, k, hf(k)) == Find(H0, i, lev, k, hf(k))
    ensures LabelsKept(L0, L2) && Unchanged(H0, H2, L0, L0[Top(i, parent)])
    ensures ok ==> Same(H0, H2, Top(i, parent), 6 * |L0[Top(i, parent)]|, hf)
    ensures !ok ==> Retry(H0, H2, Top(i, parent), 6 * |L0[Top(i, parent)]|, hf, hf(k))
  {
    RenewedFind(H0, L0, Hr, Lr, hf, i, lev, parent, k);
    var x := Top(i, parent);
    if ok {
      SameThenSame(H0, Hr, H2, x, 6 * |L0[x]|, hf);
    } else {
      RetryAfterRenew(H0, Hr, H2, L0, Lr, hf, x, 6 * |L0[x]|, hf(k));
    }
    UnchangedTrans(H0, Hr, H2, L0, Lr, L0[x]);
  }

  /**
   * The state cleanReadOnly's `lev - 5` mishandles: a root whose only
   * branch leads to an I-node holding a tomb, as removing one of two keys
   * that share their first two chunks leaves it. Compressing the root at
   * its own level 0 keeps a C-node; at level 1, as the source does, turns
   * the root itself into a tomb, which no well-formed trie holds at the
   * root and which the retry then cleans through the root's missing parent.
   */
  lemma RootEntombed<V>(r: INode<V>, j: INode<V>, e: Entry<V>, g: Generation?, hf: Key -> bv64, L: Labels<V>)
    requires r != j && Chunk(e.hash, 0) == 0
    ensures var H := map[r := CNode(1, [Ind(j)], g), j := TNode(e)];
      Collapses(H, r, 0, e.hash) &&
      ToContracted(Compressed(H, H[r]), 0) == CNode(1, [Leaf(e)], null) &&
      ToContracted(Compressed(H, H[r]), W - 5) == TNode(e) &&
      !MainOK(L, hf, ToContracted(Compressed(H, H[r]), W - 5), [])
  {
    var H := map[r := CNode(1, [Ind(j)], g), j := TNode(e)];
    assert Has(1, 0);
    assert PathOf(H, r, 0, e.hash) == [CStep(1, Down), TStep(e)];
    assert Compressed(H, H[r]).arr == [Leaf(e)];
  }

  /** branchsnode's same-key write, on the heap view. */
  lemma SwapWrite<V>(H0: Heap<V>, L0: Labels<V>, hf: Key -> bv64, i: INode<V>, lev: nat, e: Entry<V>, sn: Entry<V>,
                     c: bv6, pos: nat, gen: Generation?, m: Main<V>)
    requires HeapOK(H0, L0, hf) && LeafAt(H0, L0, i, lev, e, sn, c, pos) && EntryOK(hf, e, L0[i]) && sn.key == e.key
    requires m == Updated(H0[i], pos, Leaf(e), gen)
    ensures HeapOK(H0[i := m], L0, hf) && Unchanged(H0, H0[i := m], L0, L0[i]) && LabelsKept(L0, L0)
    ensures Rel(H0, H0[i := m], i, lev, hf, e.key, Some(e.value))
  {
    assert m.arr == H0[i].arr[pos := Leaf(e)];
    UpdateLeafWrite(H0, L0, hf, i, lev, e, pos, m);
  }

  /**
   * nobit's write as a whole: the renewal (if any) and the new C-node keep
   * the heap well formed, bind the entry's key at the reporting node and
   * change nothing outside it.
   */
  lemma NoBitView<V>(H0: Heap<V>, L0: Labels<V>, hf: Key -> bv64, i: INode<V>, lev: nat, parent: INode?<V>,
                     e: Entry<V>, gen: Generation?, rn: Main<V>, copies: map<INode<V>, INode<V>>, m: Main<V>)
    returns (Hn: Heap<V>, Ln: Labels<V>)
    requires HeapOK(H0, L0, hf) && i in H0 && lev == 6 * |L0[i]| && EntryOK(hf, e, L0[i]) && H0[i].CNode?
    requires parent != null ==> W <= lev && Below(H0, L0, parent, i, lev - W, Chunk(e.hash, lev - W), e.hash)
    requires H0[i].gen == gen ==> rn == H0[i] && copies == map[]
    requires H0[i].gen != gen ==> RenewedFrom(rn, H0[i], gen, copies)
    requires forall y :: y in copies ==> y !in H0
    requires SplicedIn(m, rn, Chunk(e.hash, lev), Leaf(e))
    ensures Renewing(H0, Hn, i, m, copies)
    ensures HeapOK(Hn, Ln, hf) && LabelsKept(L0, Ln)
    ensures Unchanged(H0, Hn, L0, L0[Top(i, parent)])
    ensures Rel(H0, Hn, Top(i, parent), 6 * |L0[Top(i, parent)]|, hf, e.key, Some(e.value))
  {
    Hn, Ln := NoBitHere(H0, L0, hf, i, lev, e, gen, rn, copies, m);
    assert e.hash == hf(e.key);
    LiftUp(H0, L0, Hn, Ln, hf, i, lev, parent, e.key, Some(e.value), true);
    RenewingIs(H0, i, rn, m, copies);
  }

  /** nobit's write reported at `i` itself: the renewal (if any) followed by the new C-node. */
  lemma NoBitHere<V>(H0: Heap<V>, L0: Labels<V>, hf: Key -> bv64, i: INode<V>, lev: nat,
                     e: Entry<V>, gen: Generation?, rn: Main<V>, copies: map<INode<V>, INode<V>>, m: Main<V>)
    returns (Hn: Heap<V>, Ln: Labels<V>)
    requires HeapOK(H0, L0, hf) && i in H0 && lev == 6 * |L0[i]| && EntryOK(hf, e, L0[i]) && H0[i].CNode?
    requires H0[i].gen == gen ==> rn == H0[i] && copies == map[]
    requires H0[i].gen != gen ==> RenewedFrom(rn, H0[i], gen, copies)
    requires forall y :: y in copies ==> y !in H0
    requires SplicedIn(m, rn, Chunk(e.hash, lev), Leaf(e))
    ensures Hn == RenewHeap(H0, i, rn, copies)[i := m]
    ensures HeapOK(Hn, Ln, hf) && LabelsKept(L0, Ln)
    ensures Unchanged(H0, Hn, L0, L0[i]) && Rel(H0, Hn, i, lev, hf, e.key, Some(e.value))
  {
    RenewifStep(H0, L0, hf, i, lev, rn, copies, gen);
    var Hr, Lr := RenewHeap(H0, i, rn, copies), RenewLabels(L0, copies);
    NoBitWrite(Hr, Lr, hf, i, lev, e, m);
    Hn, Ln := Hr[i := m], Lr;
    RenewThenRel(H0, L0, Hr, Lr, Hn, Ln, hf, i, lev, e.key, Some(e.value));
  }

  /** A change below `x` followed by one that keeps the view below `x` has the first one's effect. */
  lemma RelThenKept<V>(H0: Heap<V>, H1: Heap<V>, H2: Heap<V>, L: Labels<V>, x: INode<V>, lev: nat, hf: Key -> bv64,
                       k: Key, nv: Option<V>, g: Generation?)
    requires x in L && Rel(H0, H1, x, lev, hf, k, nv) && Unchanged(H0, H1, L, L[x]) && GenKept(H0, H1, g)
    requires Same(H1, H2, x, lev, hf) && Unchanged(H1, H2, L, L[x]) && GenKept(H1, H2, g)
    ensures Rel(H0, H2, x, lev, hf, k, nv) && Unchanged(H0, H2, L, L[x]) && GenKept(H0, H2, g)
  {
    RelThenSame(H0, H1, H2, x, lev, hf, k, nv);
    UnchangedTrans(H0, H1, H2, L, L, L[x]);
  }

  /** Every I-node of `H0` but `i` keeps its main node in `H1`. */
  ghost predicate KeptBut<V>(H0: Heap<V>, H1: Heap<V>, i: INode<V>)
  {
    forall x :: x in H0 && x != i ==> x in H1 && H1[x] == H0[x]
  }

  /** A write to one I-node keeps every other one and the set of I-nodes. */
  lemma KeptButWrite<V>(H0: Heap<V>, i: INode<V>, m: Main<V>)
    requires i in H0
    ensures KeptBut(H0, H0[i := m], i) && H0[i := m].Keys == H0.Keys
  {
  }

  /** A write to one I-node whose main field already holds the new main node keeps the mirror. */
  lemma MirrorWrite<V>(H0: Heap<V>, i: INode<V>, m: Main<V>)
    requires forall x :: x in H0 && x != i ==> x.main == H0[x]
    requires i.main == m
    ensures forall x :: x in H0[i := m] ==> x.main == H0[i := m][x]
  {
  }

  /** Every I-node of `H0` of another generation than `g` keeps its main node in `H1`. */
  ghost predicate GenKept<V>(H0: Heap<V>, H1: Heap<V>, g: Generation?)
  {
    forall x :: x in H0 && x.gen != g ==> x in H1 && H1[x] == H0[x]
  }

  lemma KeptGen<V>(H0: Heap<V>, H1: Heap<V>, i: INode<V>, g: Generation?)
    requires KeptBut(H0, H1, i) && i.gen == g
    ensures GenKept(H0, H1, g)
  {
  }

  lemma GenKeptTrans<V>(H0: Heap<V>, H1: Heap<V>, H2: Heap<V>, g: Generation?)
    requires GenKept(H0, H1, g) && GenKept(H1, H2, g)
    ensures GenKept(H0, H2, g)
  {
  }

  /** `Hn` is `H0` with `i` rewritten to `m` and the copies of a renewal added. */
  ghost predicate Renewing<V>(H0: Heap<V>, Hn: Heap<V>, i: INode<V>, m: Main<V>, copies: map<INode<V>, INode<V>>)
  {
    i in Hn && Hn[i] == m && (forall x :: x in H0 ==> x in Hn) &&
    (forall x :: x in Hn && x != i && x !in copies ==> x in H0 && Hn[x] == H0[x]) &&
    (forall y :: y in copies && y in Hn ==> copies[y] in H0 && Hn[y] == H0[copies[y]])
  }

  lemma RenewingIs<V>(H0: Heap<V>, i: INode<V>, r: Main<V>, m: Main<V>, copies: map<INode<V>, INode<V>>)
    requires i in H0 && forall y :: y in copies ==> y !in H0
    ensures Renewing(H0, RenewHeap(H0, i, r, copies)[i := m], i, m, copies)
  {
    RenewKeeps(H0, i, r, copies);
  }

  /** After a renewal every I-node of the new heap holds its mirrored main node. */
  lemma RenewingMirror<V>(H0: Heap<V>, Hn: Heap<V>, i: INode<V>, copies: map<INode<V>, INode<V>>)
    requires Renewing(H0, Hn, i, i.main, copies) && forall y :: y in copies ==> y !in H0
    requires forall x :: x in H0 && x != i ==> x.main == H0[x]
    requires forall y :: y in copies && copies[y] in H0 ==> y.main == H0[copies[y]]
    ensures forall x :: x in Hn ==> x.main == Hn[x]
    ensures KeptBut(H0, Hn, i)
  {
  }

  /** 1 while the I-node below `i` on the path of `h` is of another generation than `g`. */
  ghost function Stale<V>(H: Heap<V>, i: INode<V>, lev: nat, h: bv64, g: Generation?): nat
  {
    if i in H && H[i].CNode? && Has(H[i].bmp, Chunk(h, lev)) &&
       CountFrom(H[i].bmp, Chunk(h, lev) as nat) < |H[i].arr| &&
       H[i].arr[CountFrom(H[i].bmp, Chunk(h, lev) as nat)].Ind? &&
       H[i].arr[CountFrom(H[i].bmp, Chunk(h, lev) as nat)].i.gen != g
    then 1 else 0
  }

  /** A renewal of `i`'s C-node keeps the heap well formed and every path from `i`. */
  lemma RenewalView<V>(H0: Heap<V>, L0: Labels<V>, hf: Key -> bv64, i: INode<V>, lev: nat,
                       rn: Main<V>, copies: map<INode<V>, INode<V>>, gen: Generation?)
    returns (Hn: Heap<V>, Ln: Labels<V>)
    requires HeapOK(H0, L0, hf) && i in H0 && lev == 6 * |L0[i]| && H0[i].CNode?
    requires RenewedFrom(rn, H0[i], gen, copies)
    requires forall y :: y in copies ==> y !in H0
    ensures Renewing(H0, Hn, i, rn, copies)
    ensures HeapOK(Hn, Ln, hf) && LabelsKept(L0, Ln)
    ensures Unchanged(H0, Hn, L0, L0[i]) && SamePaths(H0, Hn, L0, i, lev)
  {
    RenewStep(H0, L0, hf, i, lev, rn, copies, gen);
    Hn, Ln := RenewHeap(H0, i, rn, copies), RenewLabels(L0, copies);
    RenewingIs(H0, i, rn, rn, copies);
    assert Hn == RenewHeap(H0, i, rn, copies)[i := rn];
  }

  /**
   * A write below `i` that keeps every path from `i` keeps `i` below its
   * parent and the view, the tombs and the collapses at the reporting node.
   */
  lemma PathsKept<V>(H0: Heap<V>, L0: Labels<V>, Hn: Heap<V>, Ln: Labels<V>, hf: Key -> bv64,
                     i: INode<V>, lev: nat, parent: INode?<V>, h: bv64)
    requires HeapOK(H0, L0, hf) && HeapOK(Hn, Ln, hf) && LabelsKept(L0, Ln)
    requires i in H0 && lev == 6 * |L0[i]| && Unchanged(H0, Hn, L0, L0[i]) && SamePaths(H0, Hn, L0, i, lev)
    requires parent != null ==> W <= lev && Below(H0, L0, parent, i, lev - W, Chunk(h, lev - W), h)
    ensures parent != null ==> Below(Hn, Ln, parent, i, lev - W, Chunk(h, lev - W), h)
    ensures ViewKept(H0, Hn, L0, Ln, Top(i, parent), hf)
  {
    if parent != null {
      PathsUp(H0, L0, Hn, hf, parent, i, lev - W, Chunk(h, lev - W), h);
    }
    RenewedView(H0, L0, Hn, Ln, hf, Top(i, parent), 6 * |L0[Top(i, parent)]|);
  }

  /** After a renewal to `gen`, every I-node below `i` is of generation `gen`. */
  lemma RenewedFresh<V>(Hn: Heap<V>, i: INode<V>, lev: nat, h: bv64, rn: Main<V>, n: Main<V>,
                        copies: map<INode<V>, INode<V>>, gen: Generation?)
    requires i in Hn && Hn[i] == rn && n.CNode? && RenewedFrom(rn, n, gen, copies)
    requires forall y :: y in copies ==> y.gen == gen
    ensures Stale(Hn, i, lev, h, gen) == 0
  {
    var c := Chunk(h, lev);
    var pos := CountFrom(rn.bmp, c as nat);
    if pos < |rn.arr| && rn.arr[pos].Ind? {
      assert CopiedBranch(rn.arr[pos], n.arr[pos], copies);
    }
  }

  /**
   * branchsnode's split as a whole: the renewal (if any), the new I-node
   * holding both leaves and the C-node pointing to it keep the heap well
   * formed, bind the entry's key below `i` and change nothing outside it.
   */
  lemma SplitView<V>(H0: Heap<V>, L0: Labels<V>, hf: Key -> bv64, i: INode<V>, lev: nat, e: Entry<V>, sn: Entry<V>,
                     c: bv6, pos: nat, gen: Generation?, rn: Main<V>, copies: map<INode<V>, INode<V>>,
                     nm: Main<V>, made: map<INode<V>, Main<V>>, nin: INode<V>)
    returns (Hn: Heap<V>, Ln: Labels<V>)
    requires HeapOK(H0, L0, hf) && LeafAt(H0, L0, i, lev, e, sn, c, pos) && EntryOK(hf, e, L0[i]) && sn.key != e.key
    requires H0[i].gen == gen ==> rn == H0[i] && copies == map[]
    requires H0[i].gen != gen ==> RenewedFrom(rn, H0[i], gen, copies)
    requires forall y :: y in copies ==> y !in H0
    requires SplitShape(made, nm, sn, sn.hash, e, e.hash, lev + W, gen)
    requires forall j :: j in made ==> j !in H0 && j !in copies && j != nin
    requires nin !in H0 && nin !in copies
    ensures Grew(H0, Hn, i, Updated(rn, pos, Ind(nin), gen), copies, nin, nm, made)
    ensures HeapOK(Hn, Ln, hf) && LabelsKept(L0, Ln) && Unchanged(H0, Hn, L0, L0[i])
    ensures Rel(H0, Hn, i, lev, hf, e.key, Some(e.value))
  {
    RenewifStep(H0, L0, hf, i, lev, rn, copies, gen);
    RenewKeeps(H0, i, rn, copies);
    RenewifLeaf(H0[i], rn, gen, copies, pos);
    RenewKeys(H0, i, rn, copies);
    var Hr, Lr := RenewHeap(H0, i, rn, copies), RenewLabels(L0, copies);
    assert LeafAt(Hr, Lr, i, lev, e, sn, c, pos);
    var H1, L1 := SplitWrite(Hr, Lr, hf, i, lev, e, sn, c, pos, nin, nm, made, gen);
    RenewThenRel(H0, L0, Hr, Lr, H1, L1, hf, i, lev, e.key, Some(e.value));
    Hn, Ln := H1, L1;
  }

  /** A renewal adds no I-node but its copies. */
  lemma RenewKeys<V>(H0: Heap<V>, i: INode<V>, r: Main<V>, copies: map<INode<V>, INode<V>>)
    ensures forall x :: x in RenewHeap(H0, i, r, copies) ==> x == i || x in H0 || x in copies
  {
  }

  /** Renewing (or not) keeps the C-node's shape and its leaves. */
  lemma RenewifLeaf<V>(n: Main<V>, rn: Main<V>, gen: Generation?, copies: map<INode<V>, INode<V>>, pos: nat)
    requires n.CNode? && pos < |n.arr| && n.arr[pos].Leaf?
    requires n.gen == gen ==> rn == n && copies == map[]
    requires n.gen != gen ==> RenewedFrom(rn, n, gen, copies)
    ensures rn.CNode? && rn.bmp == n.bmp && |rn.arr| == |n.arr| && rn.arr[pos] == n.arr[pos]
  {
    if n.gen != gen {
      assert CopiedBranch(rn.arr[pos], n.arr[pos], copies);
    }
  }

  /** `Hn` is `H0` with `i` rewritten to `m`, the copies of a renewal and the new I-nodes of a split added. */
  ghost predicate Grew<V>(H0: Heap<V>, Hn: Heap<V>, i: INode<V>, m: Main<V>, copies: map<INode<V>, INode<V>>,
                          nin: INode<V>, nm: Main<V>, made: map<INode<V>, Main<V>>)
  {
    i in Hn && Hn[i] == m && nin in Hn && Hn[nin] == nm && (forall x :: x in H0 ==> x in Hn) &&
    (forall j :: j in made ==> j in Hn && Hn[j] == made[j]) &&
    (forall x :: x in Hn && x != i && x != nin && x !in made && x !in copies ==> x in H0 && Hn[x] == H0[x]) &&
    (forall y :: y in copies && y in Hn && y != nin && y !in made ==> copies[y] in H0 && Hn[y] == H0[copies[y]])
  }

  /** After a split every I-node of the new heap holds its mirrored main node. */
  lemma GrewMirror<V>(H0: Heap<V>, Hn: Heap<V>, i: INode<V>, copies: map<INode<V>, INode<V>>,
                      nin: INode<V>, made: map<INode<V>, Main<V>>)
    requires Grew(H0, Hn, i, i.main, copies, nin, nin.main, made)
    requires nin !in H0 && (forall j :: j in made ==> j !in H0) && forall y :: y in copies ==> y !in H0
    requires forall x :: x in H0 && x != i ==> x.main == H0[x]
    requires forall y :: y in copies && copies[y] in H0 ==> y.main == H0[copies[y]]
    requires forall j :: j in made ==> j.main == made[j]
    ensures forall x :: x in Hn ==> x.main == Hn[x]
    ensures KeptBut(H0, Hn, i)
  {
  }

  /** The initial root: an empty C-node at the root is well placed and holds nothing. */
  lemma EmptyRoot<V>(H: Heap<V>, L: Labels<V>, hf: Key -> bv64, r: INode<V>, g: Generation?)
    requires H == map[r := CNode(0, [], g)] && L == map[r := []]
    ensures HeapOK(H, L, hf)
    ensures forall k :: Find(H, r, 0, k, hf(k)) == None
  {
    CountZero(64);
    assert NodeOK(H, L, hf, r);
    forall k
      ensures Find(H, r, 0, k, hf(k)) == None
    {
      PathNoBit(H, r, 0, hf(k));
    }
  }

  /**
   * A copy `n` of the root, holding the root's main node, stands for the
   * same map: both are well placed at the empty label and every path from
   * them runs through the same nodes.
   */
  lemma RootCopy<V>(H: Heap<V>, L: Labels<V>, hf: Key -> bv64, r: INode<V>, n: INode<V>)
    returns (Hn: Heap<V>, Ln: Labels<V>)
    requires HeapOK(H, L, hf) && r in H && L[r] == [] && n !in H
    ensures Hn == H[n := H[r]] && Ln == L[n := []] && HeapOK(Hn, Ln, hf) && LabelsKept(L, Ln)
    ensures forall k :: Find(Hn, n, 0, k, hf(k)) == Find(H, r, 0, k, hf(k))
  {
    Hn, Ln := H[n := H[r]], L[n := []];
    assert NodeOK(H, L, hf, r);
    MainOKMono(L, Ln, hf, H[r], []);
    HeapStep(H, L, Hn, Ln, hf);
    forall k
      ensures Find(Hn, n, 0, k, hf(k)) == Find(H, r, 0, k, hf(k))
    {
      SameMainPath(H, Hn, L, hf, n, r, 0, hf(k));
    }
  }

  /** copyToGen of the root into a fresh generation, with the view the copy stands for. */
  method FreshRootCopy<V>(r: INode<V>, ghost H: Heap<V>, ghost L: Labels<V>, hf: Key -> bv64)
    returns (n: INode<V>, ghost Hn: Heap<V>, ghost Ln: Labels<V>)
    requires HeapOK(H, L, hf) && r in H && L[r] == [] && forall x :: x in H ==> x.main == H[x]
    ensures fresh(n) && fresh(n.gen) && n.main == r.main
    ensures Hn == H[n := H[r]] && Ln == L[n := []] && HeapOK(Hn, Ln, hf) && LabelsKept(L, Ln)
    ensures forall x :: x in Hn ==> x.main == Hn[x]
    ensures forall k :: Find(Hn, n, 0, k, hf(k)) == Find(H, r, 0, k, hf(k))
  {
    var g := new Generation();
    n := CopyToGen(r, g);
    Hn, Ln := RootCopy(H, L, hf, r, n);
  }

  /** No I-node of `s`'s view is one that `c` may still write: `c` writes only I-nodes of its root's generation. */
  ghost predicate Shielded<V>(c: Ctrie<V>, s: Ctrie<V>)
    reads c, s
  {
    forall x :: x in s.H && x in c.H ==> x.gen != c.root.gen
  }
}
