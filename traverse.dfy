/**
 * traverse, Iterate and Size (ctrie_internals.go, ctrie.go). The channel a
 * traversal feeds becomes the sequence of entries it sends, and the cancel
 * channel becomes an optional count after which cancellation wins the
 * select.
 */
module Traversal {
  import opened Bits
  import opened Wrappers
  import Lists
  import opened Node
  import opened View
  import opened Ctries

  // -----------------------------------------------------------------------
  // What a traversal sends
  // -----------------------------------------------------------------------

  /**
   * The entries a traversal from `i` at level `lev` sends, in order: a
   * C-node's branches in array order (leaves as they come, I-nodes
   * recursively), a collision list's entries oldest first, and a tomb's
   * entry only when `tombs` is set.
   */
  ghost function Entries<V>(H: Heap<V>, i: INode<V>, lev: nat, tombs: bool): seq<Entry<V>>
    decreases if lev < Exp2 then Exp2 - lev else 0, 1
  {
    if i !in H then []
    else match H[i]
      case CNode(_, arr, _) => if lev >= Exp2 then [] else Spread(H, arr, lev, tombs)
      case TNode(e) => if tombs then [e] else []
      case LNode(l) => Oldest(l)
  }

  /** A collision list's entries as lNode's Map hands them out: the oldest first. */
  function Oldest<V>(l: Lists.List<Entry<V>>): (r: seq<Entry<V>>)
    ensures |r| == |Lists.Elems(l)| && forall j :: 0 <= j < |r| ==> r[j] == Lists.Elems(l)[|r| - 1 - j]
  {
    Lists.Map(l, (e: Entry<V>) => e)
  }

  /** The entries sent for the branches of `arr`, left to right. */
  ghost function Spread<V>(H: Heap<V>, arr: seq<Branch<V>>, lev: nat, tombs: bool): seq<Entry<V>>
    requires lev < Exp2
    decreases Exp2 - lev, 0, |arr|
  {
    if arr == [] then [] else Spread(H, arr[..|arr| - 1], lev, tombs) + Emitted(H, arr[|arr| - 1], lev, tombs)
  }

  /** The entries sent for one branch. */
  ghost function Emitted<V>(H: Heap<V>, b: Branch<V>, lev: nat, tombs: bool): seq<Entry<V>>
    requires lev < Exp2
    decreases Exp2 - lev, 0, 0
  {
    match b
    case Leaf(e) => [e]
    case Ind(j) => Entries(H, j, lev + W, tombs)
  }

  /**
   * What the receiver gets of `all` when cancellation wins the first select
   * that finds `limit` entries already taken, and whether it did.
   */
  function Deliver<T>(all: seq<T>, limit: Option<nat>): (r: (seq<T>, bool))
    ensures r.0 <= all
    ensures r.1 <==> limit.Some? && limit.value < |all|
    ensures r.1 ==> |r.0| == limit.value
  {
    if limit.Some? && limit.value < |all| then (all[..limit.value], true) else (all, false)
  }

  /** Once cancellation has won, what follows is never sent. */
  lemma DeliverExtend<T>(a: seq<T>, b: seq<T>, limit: Option<nat>)
    requires Deliver(a, limit).1
    ensures Deliver(a + b, limit) == Deliver(a, limit)
  {
    assert (a + b)[..limit.value] == a[..limit.value];
  }

  /** With `limit` entries taken and more to send, cancellation wins at once. */
  lemma DeliverCut<T>(a: seq<T>, b: seq<T>, limit: Option<nat>)
    requires limit.Some? && |a| == limit.value && b != []
    ensures Deliver(a + b, limit) == (a, true)
  {
    assert (a + b)[..limit.value] == a;
  }

  lemma {:induction false} SpreadAppend<V>(H: Heap<V>, a: seq<Branch<V>>, b: seq<Branch<V>>, lev: nat, tombs: bool)
    requires lev < Exp2
    ensures Spread(H, a + b, lev, tombs) == Spread(H, a, lev, tombs) + Spread(H, b, lev, tombs)
    decreases |b|
  {
    if b == [] {
      assert a + b == a;
    } else {
      var n := |b| - 1;
      assert (a + b)[..|a + b| - 1] == a + b[..n];
      SpreadAppend(H, a, b[..n], lev, tombs);
    }
  }

  /** The array split around position `p`: what comes before, the branch at `p`, and what comes after. */
  lemma SpreadAt<V>(H: Heap<V>, arr: seq<Branch<V>>, lev: nat, tombs: bool, p: nat)
    requires lev < Exp2 && p < |arr|
    ensures Spread(H, arr, lev, tombs) ==
            Spread(H, arr[..p], lev, tombs) + Emitted(H, arr[p], lev, tombs) + Spread(H, arr[p + 1..], lev, tombs)
  {
    assert arr == arr[..p] + [arr[p]] + arr[p + 1..];
    SpreadAppend(H, arr[..p] + [arr[p]], arr[p + 1..], lev, tombs);
    assert Spread(H, arr[..p] + [arr[p]], lev, tombs) == Spread(H, arr[..p], lev, tombs) + Emitted(H, arr[p], lev, tombs) by {
      assert (arr[..p] + [arr[p]])[..p] == arr[..p];
    }
  }

  /** One more branch: what the first `idx + 1` branches send, and what the whole array sends around it. */
  lemma SpreadStep<V>(H: Heap<V>, arr: seq<Branch<V>>, lev: nat, tombs: bool, idx: nat)
    requires lev < Exp2 && idx < |arr|
    ensures Spread(H, arr[..idx + 1], lev, tombs) == Spread(H, arr[..idx], lev, tombs) + Emitted(H, arr[idx], lev, tombs)
    ensures Spread(H, arr, lev, tombs) == Spread(H, arr[..idx + 1], lev, tombs) + Spread(H, arr[idx + 1..], lev, tombs)
  {
    assert arr[..idx + 1][..idx] == arr[..idx];
    assert arr == arr[..idx + 1] + arr[idx + 1..];
    SpreadAppend(H, arr[..idx + 1], arr[idx + 1..], lev, tombs);
  }

  /** Cancellation while sending branch `idx` ends the whole C-node's traversal there. */
  lemma BranchesCut<V>(H: Heap<V>, arr: seq<Branch<V>>, lev: nat, tombs: bool, idx: nat, sent: seq<Entry<V>>,
                       prev: seq<Entry<V>>, limit: Option<nat>)
    requires lev < Exp2 && idx < |arr| && prev == sent + Spread(H, arr[..idx], lev, tombs)
    requires Deliver(prev + Emitted(H, arr[idx], lev, tombs), limit).1
    ensures Deliver(sent + Spread(H, arr, lev, tombs), limit) == Deliver(prev + Emitted(H, arr[idx], lev, tombs), limit)
  {
    SpreadStep(H, arr, lev, tombs, idx);
    assert sent + Spread(H, arr, lev, tombs) ==
           prev + Emitted(H, arr[idx], lev, tombs) + Spread(H, arr[idx + 1..], lev, tombs);
    DeliverExtend(prev + Emitted(H, arr[idx], lev, tombs), Spread(H, arr[idx + 1..], lev, tombs), limit);
  }

  /** Branch `idx` sent in full: the first `idx + 1` branches are out. */
  lemma BranchesOn<V>(H: Heap<V>, arr: seq<Branch<V>>, lev: nat, tombs: bool, idx: nat, sent: seq<Entry<V>>,
                      prev: seq<Entry<V>>, out: seq<Entry<V>>, limit: Option<nat>)
    requires lev < Exp2 && idx < |arr| && prev == sent + Spread(H, arr[..idx], lev, tombs)
    requires (out, false) == Deliver(prev + Emitted(H, arr[idx], lev, tombs), limit)
    ensures out == sent + Spread(H, arr[..idx + 1], lev, tombs)
    ensures limit.Some? ==> |out| <= limit.value
  {
    SpreadStep(H, arr, lev, tombs, idx);
  }

  // -----------------------------------------------------------------------
  // The traversal
  // -----------------------------------------------------------------------

  /** One select of traverse: the entry is sent, unless `limit` entries are already taken and cancellation wins. */
  method Send<V>(out: seq<Entry<V>>, e: Entry<V>, limit: Option<nat>) returns (out': seq<Entry<V>>, canceled: bool)
    requires limit.Some? ==> |out| <= limit.value
    ensures (out', canceled) == Deliver(out + [e], limit)
  {
    if limit.Some? && |out| == limit.value {
      DeliverCut(out, [e], limit);
      return out, true;
    }
    out', canceled := out + [e], false;
  }

  /** The child an I-node branch at position `idx` points to is an I-node of the view one level down. */
  lemma ChildBelow<V>(H: Heap<V>, L: Labels<V>, hf: Key -> bv64, i: INode<V>, idx: nat)
    requires HeapOK(H, L, hf) && i in H && H[i].CNode? && idx < |H[i].arr|
    ensures H[i].arr[idx].Ind? ==> H[i].arr[idx].i in H && |L[H[i].arr[idx].i]| == |L[i]| + 1
  {
    CNodeDepth(H, L, hf, i);
    var c := BitAt(H[i].bmp, idx);
    BranchAt(H, L, hf, i, c);
  }

  /**
   * traverse: the entries below `i`, appended to the `sent` ones, as far as
   * cancellation lets them through; a tomb's entry is sent only when
   * `tombs` is set (the source never sends it).
   */
  method Traverse<V>(i: INode<V>, lev: nat, tombs: bool, sent: seq<Entry<V>>, limit: Option<nat>,
                     ghost H: Heap<V>, ghost L: Labels<V>, ghost hf: Key -> bv64)
    returns (out: seq<Entry<V>>, canceled: bool)
    requires HeapOK(H, L, hf) && (forall x :: x in H ==> x.main == H[x])
    requires i in H && lev == 6 * |L[i]|
    requires limit.Some? ==> |sent| <= limit.value
    ensures (out, canceled) == Deliver(sent + Entries(H, i, lev, tombs), limit)
    decreases if lev < Exp2 then Exp2 - lev else 0, 2
  {
    var main := i.main;
    match main
    case CNode(_, arr, _) =>
      CNodeDepth(H, L, hf, i);
      out, canceled := TraverseBranches(i, arr, lev, tombs, sent, limit, H, L, hf);
    case TNode(e) =>
      if tombs {
        out, canceled := Send(sent, e, limit);
      } else {
        assert sent + [] == sent;
        out, canceled := sent, false;
      }
    case LNode(l) =>
      out, canceled := SendAll(Oldest(l), sent, limit);
  }

  /** traverse at a C-node: every branch in array order until cancellation wins. */
  method TraverseBranches<V>(ghost i: INode<V>, arr: seq<Branch<V>>, lev: nat, tombs: bool, sent: seq<Entry<V>>,
                             limit: Option<nat>, ghost H: Heap<V>, ghost L: Labels<V>, ghost hf: Key -> bv64)
    returns (out: seq<Entry<V>>, canceled: bool)
    requires HeapOK(H, L, hf) && (forall x :: x in H ==> x.main == H[x])
    requires i in H && H[i].CNode? && arr == H[i].arr && lev == 6 * |L[i]| && lev < Exp2
    requires limit.Some? ==> |sent| <= limit.value
    ensures (out, canceled) == Deliver(sent + Spread(H, arr, lev, tombs), limit)
    decreases Exp2 - lev, 1
  {
    out := sent;
    var idx := 0;
    while idx < |arr|
      invariant 0 <= idx <= |arr|
      invariant out == sent + Spread(H, arr[..idx], lev, tombs)
      invariant limit.Some? ==> |out| <= limit.value
    {
      ChildBelow(H, L, hf, i, idx);
      var prev := out;
      out, canceled := SendBranch(arr[idx], lev, tombs, out, limit, H, L, hf);
      if canceled {
        BranchesCut(H, arr, lev, tombs, idx, sent, prev, limit);
        return;
      }
      BranchesOn(H, arr, lev, tombs, idx, sent, prev, out, limit);
      idx := idx + 1;
    }
    assert arr[..idx] == arr;
    canceled := false;
  }

  /** traverse at one branch: a leaf is sent, an I-node traversed. */
  method SendBranch<V>(b: Branch<V>, lev: nat, tombs: bool, sent: seq<Entry<V>>, limit: Option<nat>,
                       ghost H: Heap<V>, ghost L: Labels<V>, ghost hf: Key -> bv64)
    returns (out: seq<Entry<V>>, canceled: bool)
    requires HeapOK(H, L, hf) && (forall x :: x in H ==> x.main == H[x]) && lev < Exp2
    requires b.Ind? ==> b.i in H && 6 * |L[b.i]| == lev + W
    requires limit.Some? ==> |sent| <= limit.value
    ensures (out, canceled) == Deliver(sent + Emitted(H, b, lev, tombs), limit)
    decreases Exp2 - lev, 0
  {
    match b
    case Leaf(e) =>
      out, canceled := Send(sent, e, limit);
    case Ind(j) =>
      out, canceled := Traverse(j, lev + W, tombs, sent, limit, H, L, hf);
  }

  /** traverse at a collision list: its entries in order until cancellation wins. */
  method SendAll<V>(es: seq<Entry<V>>, sent: seq<Entry<V>>, limit: Option<nat>) returns (out: seq<Entry<V>>, canceled: bool)
    requires limit.Some? ==> |sent| <= limit.value
    ensures (out, canceled) == Deliver(sent + es, limit)
  {
    out := sent;
    var idx := 0;
    while idx < |es|
      invariant 0 <= idx <= |es|
      invariant out == sent + es[..idx]
      invariant limit.Some? ==> |out| <= limit.value
    {
      var prev := out;
      out, canceled := Send(out, es[idx], limit);
      if canceled {
        assert sent + es == prev + [es[idx]] + es[idx + 1..];
        DeliverExtend(prev + [es[idx]], es[idx + 1..], limit);
        return;
      }
      assert es[..idx + 1] == es[..idx] + [es[idx]];
      idx := idx + 1;
    }
    assert es[..idx] == es;
    canceled := false;
  }

  // -----------------------------------------------------------------------
  // What a traversal misses, and what it covers once tombs are sent
  // -----------------------------------------------------------------------

  /** The first entry with key `k` lies in the sequence. */
  lemma {:induction false} FirstValueIn<V>(s: seq<Entry<V>>, k: Key) returns (idx: nat)
    requires FirstValue(s, k).Some?
    ensures idx < |s| && s[idx].key == k && Some(s[idx].value) == FirstValue(s, k)
  {
    if s[0].key == k {
      idx := 0;
    } else {
      var j := FirstValueIn(s[1..], k);
      idx := j + 1;
    }
  }

  /**
   * A traversal that sends tombs misses no binding: the entry that the
   * key's value is found in below `i` is among the entries sent from `i`.
   */
  lemma {:induction false} Complete<V>(H: Heap<V>, L: Labels<V>, hf: Key -> bv64, i: INode<V>, lev: nat, k: Key, v: V)
    requires HeapOK(H, L, hf) && i in H && lev == 6 * |L[i]|
    requires Find(H, i, lev, k, hf(k)) == Some(v)
    ensures Entry(k, v, hf(k)) in Entries(H, i, lev, true)
    decreases if lev < Exp2 then Exp2 - lev else 0, 1
  {
    match H[i]
    case CNode(_, _, _) =>
      CNodeDepth(H, L, hf, i);
      CompleteBranches(H, L, hf, i, lev, k, v);
    case TNode(e) =>
      assert NodeOK(H, L, hf, i);
    case LNode(l) =>
      assert NodeOK(H, L, hf, i);
      var idx := FirstValueIn(Lists.Elems(l), k);
      assert Oldest(l)[|Lists.Elems(l)| - 1 - idx] == Lists.Elems(l)[idx];
  }

  /** Complete at a C-node: the binding is found through the branch at the key's chunk. */
  lemma {:induction false} CompleteBranches<V>(H: Heap<V>, L: Labels<V>, hf: Key -> bv64, i: INode<V>, lev: nat, k: Key, v: V)
    requires HeapOK(H, L, hf) && i in H && H[i].CNode? && lev == 6 * |L[i]| && lev < Exp2
    requires Find(H, i, lev, k, hf(k)) == Some(v)
    ensures Entry(k, v, hf(k)) in Spread(H, H[i].arr, lev, true)
    decreases Exp2 - lev, 0
  {
    var bmp, h := H[i].bmp, hf(k);
    var c := Chunk(h, lev);
    if Has(bmp, c) {
      var p := CountFrom(bmp, c as nat);
      BranchAt(H, L, hf, i, c);
      SpreadAt(H, H[i].arr, lev, true, p);
      match H[i].arr[p]
      case Leaf(e) =>
        PathLeaf(H, i, lev, h, e);
      case Ind(j) =>
        PathDown(H, i, j, lev, h);
        Complete(H, L, hf, j, lev + W, k, v);
    } else {
      PathNoBit(H, i, lev, h);
      assert false;
    }
  }

  /**
   * The traversal as written skips tombs: a root whose only branch is an
   * I-node holding a tomb (what a removal leaves one level below the root
   * once cleanParent has contracted the level under it) binds the tomb's
   * key, yet nothing is sent.
   */
  lemma TombSkipped<V>(H: Heap<V>, r: INode<V>, j: INode<V>, e: Entry<V>, g: Generation?)
    requires r in H && j in H && H[r] == CNode(1, [Ind(j)], g) && H[j] == TNode(e) && Chunk(e.hash, 0) == 0
    ensures Find(H, r, 0, e.key, e.hash) == Some(e.value)
    ensures Entries(H, r, 0, false) == [] && Entries(H, r, 0, true) == [e]
  {
    assert Has(1, 0);
    assert PathOf(H, r, 0, e.hash) == [CStep(1, Down), TStep(e)];
    assert Spread(H, [Ind(j)], 0, false) == Entries(H, j, W, false);
    assert Spread(H, [Ind(j)], 0, true) == Entries(H, j, W, true);
  }

  /** Every binding of a trie is among the entries a full traversal from its root sends. */
  lemma Covers<V>(c: Ctrie<V>, k: Key)
    requires c.Valid() && c.Get(k).Some?
    ensures Entry(k, c.Get(k).value, c.hash(k)) in Entries(c.H, c.root, 0, true)
  {
    Complete(c.H, c.L, c.hash, c.root, 0, k, c.Get(k).value);
  }

  // -----------------------------------------------------------------------
  // Iterate and Size
  // -----------------------------------------------------------------------

  /**
   * Iterate: a read-only snapshot, then a traversal of it from its root.
   * What the receiver gets is the snapshot's entries, cut where
   * cancellation wins; the trie's map is left as it was.
   */
  method Iterate<V>(c: Ctrie<V>, limit: Option<nat>) returns (out: seq<Entry<V>>)
    requires c.Valid()
    modifies c`root, c`H, c`L
    ensures c.Valid() && forall k :: c.Get(k) == old(c.Get(k))
    ensures out == Deliver(Entries(old(c.H), old(c.root), 0, true), limit).0
  {
    var s := c.SnapshotReadOnly();
    var canceled;
    out, canceled := Traverse(s.root, 0, true, [], limit, s.H, s.L, s.hash);
    assert [] + Entries(s.H, s.root, 0, true) == Entries(s.H, s.root, 0, true);
  }

  /**
   * Iterate as written: the traversal sends nothing for a tomb, so what the
   * receiver gets is the snapshot's entries without the tombed ones.
   */
  method IterateAsWritten<V>(c: Ctrie<V>, limit: Option<nat>) returns (out: seq<Entry<V>>)
    requires c.Valid()
    modifies c`root, c`H, c`L
    ensures c.Valid() && forall k :: c.Get(k) == old(c.Get(k))
    ensures out == Deliver(Entries(old(c.H), old(c.root), 0, false), limit).0
  {
    var s := c.SnapshotReadOnly();
    var canceled;
    out, canceled := Traverse(s.root, 0, false, [], limit, s.H, s.L, s.hash);
    assert [] + Entries(s.H, s.root, 0, false) == Entries(s.H, s.root, 0, false);
  }

  /** Size as written: counts what the as-written iteration yields, so no tombed entry. */
  method SizeAsWritten<V>(c: Ctrie<V>) returns (size: nat)
    requires c.Valid()
    modifies c`root, c`H, c`L
    ensures c.Valid() && forall k :: c.Get(k) == old(c.Get(k))
    ensures size == |Entries(old(c.H), old(c.root), 0, false)|
  {
    var es := IterateAsWritten(c, None);
    size := 0;
    for j := 0 to |es|
      invariant size == j
    {
      size := size + 1;
    }
  }

  /** Size: the entries a full iteration yields, counted one by one. */
  method Size<V>(c: Ctrie<V>) returns (size: nat)
    requires c.Valid()
    modifies c`root, c`H, c`L
    ensures c.Valid() && forall k :: c.Get(k) == old(c.Get(k))
    ensures size == |Entries(old(c.H), old(c.root), 0, true)|
  {
    var es := Iterate(c, None);
    size := 0;
    for j := 0 to |es|
      invariant size == j
    {
      size := size + 1;
    }
  }
}
