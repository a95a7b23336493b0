/**
 * The node-level helpers of the trie engine (util.go): contraction of a
 * C-node left with a single leaf, compression of a C-node whose I-nodes
 * hold tombs, and the tomb constructors.
 */
module Util {
  import opened Bits
  import opened Node
  import opened View

  /** entomb: the tomb holding the S-node's entry. */
  function Entomb<V>(e: Entry<V>): Main<V>
  {
    TNode(e)
  }

  /**
   * toContracted: below the root, a C-node whose only branch is a leaf
   * becomes a tomb for that leaf; any other C-node stays as it is.
   */
  function ToContracted<V>(cn: Main<V>, lev: nat): Main<V>
    requires cn.CNode?
  {
    if lev > 0 && |cn.arr| == 1 then
      match cn.arr[0]
      case Leaf(e) => Entomb(e)
      case Ind(_) => cn
    else
      cn
  }

  /** resurrect: an I-node whose main node is a tomb stands for the tomb's leaf. */
  function Resurrect<V>(i: INode<V>, main: Main<V>): Branch<V>
  {
    if main.TNode? then Untombed(main) else Ind(i)
  }

  /** A branch with its I-node resurrected, reading main nodes from heap `H`. */
  ghost function ResurrectIn<V>(H: Heap<V>, b: Branch<V>): Branch<V>
  {
    match b
    case Leaf(_) => b
    case Ind(i) => if i in H then Resurrect(i, H[i]) else b
  }

  /**
   * The array toCompressed builds: every branch resurrected. The C-node it
   * builds has no generation, as in the source.
   */
  ghost function Compressed<V>(H: Heap<V>, cn: Main<V>): Main<V>
    requires cn.CNode?
  {
    CNode(cn.bmp, seq(|cn.arr|, j requires 0 <= j < |cn.arr| => ResurrectIn(H, cn.arr[j])), null)
  }

  /**
   * toCompressed: resurrects each I-node branch from its current main node
   * and contracts the result.
   */
  method ToCompressed<V>(cn: Main<V>, lev: nat, ghost H: Heap<V>) returns (r: Main<V>)
    requires cn.CNode?
    requires forall j :: 0 <= j < |cn.arr| && cn.arr[j].Ind? ==> cn.arr[j].i in H && cn.arr[j].i.main == H[cn.arr[j].i]
    ensures r == ToContracted(Compressed(H, cn), lev)
  {
    var tmp := new Branch<V>[|cn.arr|](j requires 0 <= j < |cn.arr| => cn.arr[j]);
    for j := 0 to |cn.arr|
      invariant forall k :: 0 <= k < j ==> tmp[k] == ResurrectIn(H, cn.arr[k])
    {
      match cn.arr[j] {
        case Ind(inode) =>
          var main := inode.main;
          tmp[j] := Resurrect(inode, main);
        case Leaf(_) =>
          tmp[j] := cn.arr[j];
      }
    }
    assert tmp[..] == Compressed(H, cn).arr;
    r := ToContracted(CNode(cn.bmp, tmp[..], null), lev);
  }
}
