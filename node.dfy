/**
 * The nodes of the Ctrie (node.go): entries, I-nodes, the three kinds of
 * main node, and the copy-on-write operations on C-node branch arrays.
 */
module Node {
  import opened Bits
  import opened Lists
  import opened Wrappers

  type Key = seq<bv8>

  /** A key, its value and the key's hash code (an S-node's payload). */
  datatype Entry<V> = Entry(key: Key, value: V, hash: bv64)

  /** Generations are compared by identity only. */
  class Generation {
    constructor ()
    {
    }
  }

  /** An indirection node: the only mutable cell of the trie is its `main`. */
  class INode<V> {
    var main: Main<V>
    const gen: Generation?

    constructor (main: Main<V>, gen: Generation?)
      ensures this.main == main && this.gen == gen
    {
      this.main := main;
      this.gen := gen;
    }
  }

  /** A branch of a C-node: an S-node (a leaf) or an I-node. */
  datatype Branch<V> = Leaf(e: Entry<V>) | Ind(i: INode<V>)

  /** A main node: a C-node (bitmap and compacted array), a tomb or a collision list. */
  datatype Main<V> =
    | CNode(bmp: bv64, arr: seq<Branch<V>>, gen: Generation?)
    | TNode(e: Entry<V>)
    | LNode(l: List<Entry<V>>)

  // -----------------------------------------------------------------------
  // newNode
  // -----------------------------------------------------------------------

  /**
   * The shape newNode builds for entries x and y from level `lev`: while
   * the chunks agree, a C-node with the one flag whose single branch is an
   * I-node (in `made`) one level deeper; where they first differ, a C-node
   * with both flags and the two leaves in ascending chunk order; past the
   * end of the hash, a collision list whose head is y.
   */
  ghost predicate SplitShape<V>(made: map<INode<V>, Main<V>>, m: Main<V>, x: Entry<V>, xhc: bv64,
                                y: Entry<V>, yhc: bv64, lev: nat, gen: Generation?)
    decreases if lev < Exp2 then Exp2 - lev else 0
  {
    if lev < Exp2 then
      var cx, cy := Chunk(xhc, lev), Chunk(yhc, lev);
      if cx == cy then
        m.CNode? && m.bmp == Flag(cx) && |m.arr| == 1 && m.arr[0].Ind? && m.gen == gen &&
        m.arr[0].i in made && m.arr[0].i.gen == gen &&
        SplitShape(made - {m.arr[0].i}, made[m.arr[0].i], x, xhc, y, yhc, lev + W, gen)
      else
        m == Pair(x, cx, y, cy, gen) && made == map[]
    else
      m == LNode(Add(Add(Empty, x), y)) && made == map[]
  }

  /** newNode: the node holding both x and y, built from level `lev` down. */
  method NewNode<V>(x: Entry<V>, xhc: bv64, y: Entry<V>, yhc: bv64, lev: nat, gen: Generation?)
    returns (m: Main<V>, ghost made: map<INode<V>, Main<V>>)
    ensures SplitShape(made, m, x, xhc, y, yhc, lev, gen)
    ensures forall j :: j in made ==> fresh(j) && j.main == made[j]
    decreases if lev < Exp2 then Exp2 - lev else 0
  {
    if lev < Exp2 {
      var xidx := Chunk(xhc, lev);
      var yidx := Chunk(yhc, lev);
      if xidx == yidx {
        var main, below := NewNode(x, xhc, y, yhc, lev + W, gen);
        var inode := new INode(main, gen);
        m, made := CNode(Flag(xidx), [Ind(inode)], gen), below[inode := main];
        assert made - {inode} == below;
      } else {
        m, made := Pair(x, xidx, y, yidx, gen), map[];
      }
    } else {
      m, made := LNode(Add(Add(Empty, x), y)), map[];
    }
  }

  /** The C-node holding leaves x and y under their distinct chunks cx and cy, in ascending chunk order. */
  function Pair<V>(x: Entry<V>, cx: bv6, y: Entry<V>, cy: bv6, gen: Generation?): Main<V>
  {
    CNode(Flag(cx) | Flag(cy), if cx < cy then [Leaf(x), Leaf(y)] else [Leaf(y), Leaf(x)], gen)
  }

  // -----------------------------------------------------------------------
  // C-node arrays
  // -----------------------------------------------------------------------

  /** inserted: a copy of the C-node with `br` spliced in at `pos`. */
  method Inserted<V>(cn: Main<V>, pos: nat, flag: bv64, br: Branch<V>, gen: Generation?) returns (r: Main<V>)
    requires cn.CNode? && pos <= |cn.arr|
    ensures r.CNode? && r.bmp == cn.bmp | flag && r.gen == gen
    ensures |r.arr| == |cn.arr| + 1 && r.arr[pos] == br
    ensures forall j :: 0 <= j < pos ==> r.arr[j] == cn.arr[j]
    ensures forall j :: pos < j < |r.arr| ==> r.arr[j] == cn.arr[j - 1]
  {
    var length := |cn.arr|;
    var a := new Branch<V>[length + 1](_ => br);
    // copy the old branches into the fresh array
    for j := 0 to length
      invariant forall k :: 0 <= k < j ==> a[k] == cn.arr[k]
    {
      a[j] := cn.arr[j];
    }
    a[pos] := br;
    var i, x := pos, 0;
    while x < length - pos
      invariant i == pos + x && x <= length - pos
      invariant a[pos] == br
      invariant forall k :: 0 <= k < pos ==> a[k] == cn.arr[k]
      invariant forall k :: pos < k <= i ==> a[k] == cn.arr[k - 1]
    {
      a[i + 1] := cn.arr[i];
      i := i + 1;
      x := x + 1;
    }
    r := CNode(cn.bmp | flag, a[..], gen);
  }

  /** updated: a copy of the C-node whose branch at `pos` is `br`. */
  function Updated<V>(cn: Main<V>, pos: nat, br: Branch<V>, gen: Generation?): (r: Main<V>)
    requires cn.CNode? && pos < |cn.arr|
    ensures r.CNode? && r.bmp == cn.bmp && r.gen == gen && |r.arr| == |cn.arr|
    ensures r.arr[pos] == br
    ensures forall j :: 0 <= j < |r.arr| && j != pos ==> r.arr[j] == cn.arr[j]
  {
    CNode(cn.bmp, cn.arr[pos := br], gen)
  }

  /** removed: a copy of the C-node without the branch at `pos`. */
  method Removed<V>(cn: Main<V>, pos: nat, flag: bv64, gen: Generation?) returns (r: Main<V>)
    requires cn.CNode? && pos < |cn.arr|
    ensures r.CNode? && r.bmp == cn.bmp ^ flag && r.gen == gen
    ensures |r.arr| == |cn.arr| - 1
    ensures forall j :: 0 <= j < pos ==> r.arr[j] == cn.arr[j]
    ensures forall j :: pos <= j < |r.arr| ==> r.arr[j] == cn.arr[j + 1]
  {
    var length := |cn.arr|;
    var a := new Branch<V>[length - 1](_ => cn.arr[pos]);
    for i := 0 to pos
      invariant forall k :: 0 <= k < i ==> a[k] == cn.arr[k]
    {
      a[i] := cn.arr[i];
    }
    var i, x := pos, 0;
    while x < length - pos - 1
      invariant i == pos + x && x <= length - pos - 1
      invariant forall k :: 0 <= k < pos ==> a[k] == cn.arr[k]
      invariant forall k :: pos <= k < i ==> a[k] == cn.arr[k + 1]
    {
      a[i] := cn.arr[i + 1];
      i := i + 1;
      x := x + 1;
    }
    r := CNode(cn.bmp ^ flag, a[..], gen);
  }

  /** copyToGen: a fresh I-node of generation `gen` with the same main node. */
  method CopyToGen<V>(i: INode<V>, gen: Generation?) returns (nin: INode<V>)
    ensures fresh(nin) && nin.main == i.main && nin.gen == gen
  {
    nin := new INode(i.main, gen);
  }

  /** Branch `b'` is `b` with its I-node (if any) replaced by a recorded copy. */
  ghost predicate CopiedBranch<V>(b': Branch<V>, b: Branch<V>, copies: map<INode<V>, INode<V>>)
  {
    match b
    case Leaf(_) => b' == b
    case Ind(t) => b'.Ind? && b'.i in copies && copies[b'.i] == t
  }

  /** `r` is C-node `n` renewed to `gen`: same bitmap, leaves kept, I-nodes copied. */
  ghost predicate RenewedFrom<V>(r: Main<V>, n: Main<V>, gen: Generation?, copies: map<INode<V>, INode<V>>)
    requires n.CNode?
  {
    r.CNode? && r.bmp == n.bmp && r.gen == gen && |r.arr| == |n.arr| &&
    forall j :: 0 <= j < |n.arr| ==> CopiedBranch(r.arr[j], n.arr[j], copies)
  }

  /** renewed: the C-node with every I-node below it copied to generation `gen`. */
  method Renewed<V>(n: Main<V>, gen: Generation?) returns (r: Main<V>, ghost copies: map<INode<V>, INode<V>>)
    requires n.CNode?
    ensures RenewedFrom(r, n, gen, copies)
    ensures forall y :: y in copies ==> fresh(y) && y.main == copies[y].main && y.gen == gen
  {
    var a := new Branch<V>[|n.arr|](j requires 0 <= j < |n.arr| => n.arr[j]);
    copies := map[];
    for j := 0 to |n.arr|
      invariant forall y :: y in copies ==> fresh(y) && y.main == copies[y].main && y.gen == gen
      invariant forall k :: 0 <= k < j ==> CopiedBranch(a[k], n.arr[k], copies)
    {
      match n.arr[j] {
        case Ind(t) =>
          var nin := CopyToGen(t, gen);
          a[j] := Ind(nin);
          copies := copies[nin := t];
        case Leaf(_) =>
          a[j] := n.arr[j];
      }
    }
    r := CNode(n.bmp, a[..], gen);
  }

  /** renewif: renew the C-node only when its generation differs from `gen`. */
  method Renewif<V>(n: Main<V>, gen: Generation?) returns (r: Main<V>, ghost copies: map<INode<V>, INode<V>>)
    requires n.CNode?
    ensures n.gen == gen ==> r == n && copies == map[]
    ensures n.gen != gen ==> RenewedFrom(r, n, gen, copies)
    ensures forall y :: y in copies ==> fresh(y) && y.main == copies[y].main && y.gen == gen
  {
    if n.gen != gen {
      r, copies := Renewed(n, gen);
    } else {
      r, copies := n, map[];
    }
  }

  /** untombed: the leaf holding the tomb's entry (same key, hash and value). */
  function Untombed<V>(tn: Main<V>): (r: Branch<V>)
    requires tn.TNode?
    ensures r.Leaf? && r.e.key == tn.e.key && r.e.hash == tn.e.hash && r.e.value == tn.e.value
  {
    Leaf(Entry(tn.e.key, tn.e.value, tn.e.hash))
  }

  // -----------------------------------------------------------------------
  // Collision lists
  // -----------------------------------------------------------------------

  /** The value of the first entry of `s` with key `k` (the reference lookup). */
  ghost function FirstValue<V>(s: seq<Entry<V>>, k: Key): Option<V>
  {
    if s == [] then None
    else if s[0].key == k then Some(s[0].value)
    else FirstValue(s[1..], k)
  }

  /** lNode.entry: the head entry; the source panics on an empty list. */
  function LEntry<V>(l: List<Entry<V>>): (r: Entry<V>)
    requires !IsEmpty(l)
    ensures r == Elems(l)[0]
  {
    Head(l).value
  }

  function KeyIs<V>(k: Key): Entry<V> -> bool
  {
    (sn: Entry<V>) => sn.key == k
  }

  /** lNode.lookup: the value of the first entry with key `k`. */
  function LLookup<V>(l: List<Entry<V>>, k: Key): (r: Option<V>)
    ensures r == FirstValue(Elems(l), k)
  {
    LookupFirst(l, k);
    match Find(l, KeyIs(k))
    case None => None
    case Some(sn) => Some(sn.value)
  }

  lemma {:induction false} LookupFirst<V>(l: List<Entry<V>>, k: Key)
    ensures FirstValue(Elems(l), k) == match Find(l, KeyIs(k)) case None => None case Some(sn) => Some(sn.value)
  {
    match l
    case Empty =>
    case Cons(x, t) =>
      assert Elems(l)[0] == x && Elems(l)[1..] == Elems(t);
      LookupFirst(t, k);
  }

  /** lNode.inserted: the list with the entry prepended. */
  function LInserted<V>(l: List<Entry<V>>, e: Entry<V>): (r: List<Entry<V>>)
    ensures Elems(r) == [e] + Elems(l)
    ensures forall k :: LLookup(r, k) == if k == e.key then Some(e.value) else LLookup(l, k)
  {
    var r := Add(l, e);
    assert forall k :: FirstValue(Elems(r), k) == if k == e.key then Some(e.value) else FirstValue(Elems(l), k) by {
      assert Elems(r)[0] == e && Elems(r)[1..] == Elems(l);
    }
    r
  }

  /** lNode.removed: the list without its first entry with key `k`, or the list itself. */
  function LRemoved<V>(l: List<Entry<V>>, k: Key): (r: List<Entry<V>>)
    ensures FindIndex(l, KeyIs(k)) < 0 ==> r == l
    ensures FindIndex(l, KeyIs(k)) >= 0 ==>
      var j := FindIndex(l, KeyIs(k)); Elems(r) == Elems(l)[..j] + Elems(l)[j + 1..]
  {
    var idx := FindIndex(l, KeyIs(k));
    if idx < 0 then l else Remove(l, idx).value
  }

  /** lNode.length. */
  function LLength<V>(l: List<Entry<V>>): (n: nat)
    ensures n == |Elems(l)|
  {
    Length(l)
  }

  /** Lookup of the first match: no entry with key k before the index found. */
  lemma {:induction false} FirstValueAt<V>(s: seq<Entry<V>>, k: Key, j: nat)
    requires j < |s| && s[j].key == k
    requires forall i :: 0 <= i < j ==> s[i].key != k
    ensures FirstValue(s, k) == Some(s[j].value)
  {
    if j > 0 {
      FirstValueAt(s[1..], k, j - 1);
    }
  }

  lemma {:induction false} FirstValueNone<V>(s: seq<Entry<V>>, k: Key)
    requires forall i :: 0 <= i < |s| ==> s[i].key != k
    ensures FirstValue(s, k) == None
  {
    if s != [] {
      FirstValueNone(s[1..], k);
    }
  }

  /** Dropping an entry with another key does not change what lookup finds. */
  lemma {:induction false} FirstValueDrop<V>(s: seq<Entry<V>>, j: nat, k: Key)
    requires j < |s| && s[j].key != k
    ensures FirstValue(s[..j] + s[j + 1..], k) == FirstValue(s, k)
  {
    if j > 0 {
      assert (s[..j] + s[j + 1..])[0] == s[0];
      assert (s[..j] + s[j + 1..])[1..] == s[1..][..j - 1] + s[1..][j..];
      FirstValueDrop(s[1..], j - 1, k);
    } else {
      assert s[..j] + s[j + 1..] == s[1..];
    }
  }

  /**
   * Removing `k` from a collision list leaves every other key's lookup as
   * it was; lookup of `k` itself finds the next older duplicate, if any.
   */
  lemma LRemovedLookup<V>(l: List<Entry<V>>, k: Key, k': Key)
    requires k' != k
    ensures LLookup(LRemoved(l, k), k') == LLookup(l, k')
  {
    var j := FindIndex(l, KeyIs(k));
    if j >= 0 {
      FirstValueDrop(Elems(l), j, k');
    }
  }

  /** When no entry has key `k`, removal gives back the same list and lookup nothing. */
  lemma LRemovedAbsent<V>(l: List<Entry<V>>, k: Key)
    requires LLookup(l, k).None?
    ensures LRemoved(l, k) == l
  {
    var j := FindIndex(l, KeyIs(k));
    if j >= 0 {
      FirstValueAt(Elems(l), k, j);
    }
  }
}
