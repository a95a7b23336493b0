/**
 * Sequences of public Ctrie operations (ctrie.go). What generations buy:
 * once two tries share I-nodes only of generations neither writes, a write
 * through one is invisible in the other. And what the read-only snapshot as
 * written gives up: it shares the root its source goes on writing through.
 */
module Scenarios {
  import opened Bits
  import opened Wrappers
  import opened Node
  import opened View
  import opened Ctries
  import Traversal

  /** An insert through `c` leaves a shielded `s` as it was, and `s` stays shielded. */
  method InsertApart<V>(c: Ctrie<V>, s: Ctrie<V>, k: Key, v: V)
    requires c.Valid() && s.Valid() && !c.readOnly && Shielded(c, s)
    modifies c`H, c`L, c.H.Keys
    ensures c.Valid() && s.Valid() && Shielded(c, s)
    ensures c.Get(k) == Some(v) && forall k' :: s.Get(k') == old(s.Get(k'))
  {
    c.Insert(k, v);
  }

  /** A removal through `c` leaves a shielded `s` as it was, and `s` stays shielded. */
  method RemoveApart<V>(c: Ctrie<V>, s: Ctrie<V>, k: Key) returns (res: Option<V>)
    requires c.Valid() && s.Valid() && !c.readOnly && Shielded(c, s)
    modifies c`H, c`L, c.H.Keys
    ensures c.Valid() && s.Valid() && Shielded(c, s)
    ensures res == old(c.Get(k)) && forall k' :: s.Get(k') == old(s.Get(k'))
  {
    res := c.Remove(k);
  }

  /** A lookup through `c`, which may clean tombs, leaves a shielded `s` as it was. */
  method LookupApart<V>(c: Ctrie<V>, s: Ctrie<V>, k: Key) returns (res: Option<V>)
    requires c.Valid() && s.Valid() && Shielded(c, s)
    modifies c`H, c`L, c.H.Keys
    ensures c.Valid() && s.Valid() && Shielded(c, s)
    ensures res == old(c.Get(k)) && forall k' :: s.Get(k') == old(s.Get(k'))
  {
    res := c.Lookup(k);
  }

  /** A read-write snapshot keeps the map as it was while the original moves on, and the other way round. */
  method SnapshotThenInsert<V>(c: Ctrie<V>, k: Key, v: V) returns (s: Ctrie<V>)
    requires c.Valid() && !c.readOnly
    modifies c`root, c`H, c`L, c.H.Keys
    ensures c.Valid() && s.Valid() && Shielded(c, s) && Shielded(s, c)
    ensures c.Get(k) == Some(v) && forall k' :: s.Get(k') == old(c.Get(k'))
  {
    s := c.SnapshotReadWrite();
    c.Insert(k, v);
  }

  /** The read-only snapshot, taken as intended, keeps the map as it was while the original moves on. */
  method ReadOnlySnapshotThenInsert<V>(c: Ctrie<V>, k: Key, v: V) returns (s: Ctrie<V>)
    requires c.Valid() && !c.readOnly
    modifies c`root, c`H, c`L, c.H.Keys
    ensures c.Valid() && s.Valid() && s.readOnly
    ensures c.Get(k) == Some(v) && forall k' :: s.Get(k') == old(c.Get(k'))
  {
    s := c.SnapshotReadOnly();
    c.Insert(k, v);
  }

  /**
   * The read-only snapshot as the source takes it: the snapshot's root is
   * the root `c` then writes through, so the map found from it gains `k`.
   * `s.Get` reads the heap `s` was handed, which the insert does not update,
   * so it still gives the old value; the last postcondition reads the heap
   * the insert wrote, which is what the shared root reaches.
   */
  method ReadOnlySnapshotAsWrittenSeesInsert<V>(c: Ctrie<V>, k: Key, v: V) returns (s: Ctrie<V>)
    requires c.Valid() && !c.readOnly
    modifies c`root, c`H, c`L, c.H.Keys
    ensures s.readOnly && s.root == c.root && s.hash == c.hash
    ensures s.Get(k) == old(c.Get(k))
    ensures Find(c.H, s.root, 0, k, s.hash(k)) == Some(v)
  {
    s := c.SnapshotReadOnlyAsWritten();
    c.Insert(k, v);
  }

  /** A lookup after an insert finds the value inserted, whatever the key held before. */
  method InsertThenLookup<V>(c: Ctrie<V>, k: Key, v: V) returns (res: Option<V>)
    requires c.Valid() && !c.readOnly
    modifies c`H, c`L, c.H.Keys
    ensures c.Valid() && res == Some(v)
  {
    c.Insert(k, v);
    res := c.Lookup(k);
  }

  /** Clear empties the trie and leaves a snapshot taken before it as it was. */
  method SnapshotThenClear<V>(c: Ctrie<V>) returns (s: Ctrie<V>)
    requires c.Valid() && !c.readOnly
    modifies c`root, c`H, c`L
    ensures c.Valid() && s.Valid()
    ensures forall k :: c.Get(k) == None && s.Get(k) == old(c.Get(k))
  {
    s := c.SnapshotReadWrite();
    c.Clear();
  }

  /**
   * Size as the source counts, on a trie whose root holds one I-node with a
   * tomb, which is what removing the second of two keys whose hashes agree
   * on their first two chunks leaves: the tomb's key is bound, yet nothing
   * is counted.
   */
  method SizeAsWrittenMissesTomb<V>(c: Ctrie<V>, j: INode<V>, e: Entry<V>, g: Generation?) returns (size: nat)
    requires c.Valid() && j in c.H && c.H[c.root] == CNode(1, [Ind(j)], g) && c.H[j] == TNode(e)
    modifies c`root, c`H, c`L
    ensures c.Valid() && c.Get(e.key) == old(c.Get(e.key)) == Some(e.value)
    ensures size == 0
  {
    assert NodeOK(c.H, c.L, c.hash, c.root);
    assert Has(1, 0) && CountFrom(1, 0) == 0;
    assert c.L[j] == [0];
    assert NodeOK(c.H, c.L, c.hash, j);
    assert c.L[j][0] == Chunk(e.hash, 6 * 0);
    Traversal.TombSkipped(c.H, c.root, j, e, g);
    size := Traversal.SizeAsWritten(c);
  }
}
