# sled's Ctrie, path helpers and event-type registry, in Dafny

This project models the core of sled (Avalanche-io/sled):

- **The Ctrie port.** A hash array mapped trie with generation-tagged I-nodes, which gives constant-time snapshots.
- **The persistent list** behind its collision nodes.
- **The path and file-name helpers** of the `config` package.
- **The event-type registry** of the `events` package.

The model runs one operation at a time. The trie's concurrency primitives reduce to the writes they perform when nothing else runs:

- GCAS becomes `i.main := n`.
- RDCSS becomes `root := nv`.

Modules follow the source files:

| module (file) | source |
|---|---|
| `Bits` (bits.dfy) | bits.go: hash chunks, flags, positions in a compacted array |
| `Node` (node.dfy) | node.go: entries, I-nodes, main nodes, `newNode`, the copy-on-write array operations, collision lists |
| `Lists` (list.dfy) | the persistent list as list_test.go pins it down |
| `Util` (util.dfy) | util.go: `entomb`, `toContracted`, `resurrect`, `toCompressed` |
| `View` (view.dfy) | the abstraction: what a key finds along the path its hash selects (`Find`), and what it finds once one binding is removed (`Shadow`) |
| `Steps`, `Shrink`, `Split`, `Writes`, `Removes` | one lemma per kind of write of the engine; each shows the heap stays well formed and states how the view changes |
| `Ctries` (ctrie.dfy) | ctrie.go and ctrie_internals.go: class `Ctrie` with `root`, `readOnly`, `hash`, and a ghost mirror `H` of every I-node's main node |
| `Traversal` (traverse.dfy) | `traverse`, `Iterate`, `Size` |
| `Scenarios` (scenarios.dfy) | snapshot isolation and insert-then-lookup, stated over two tries |
| `Paths`, `Filenames`, `Configs` | config/path.go, config/filename.go, config/config.go |
| `Events` (events.dfy) | events/events.go: `Type.String`, `AddType`, `StringToType` |

**How the trie is specified.**

- A `Ctrie` stands for the map `Get(k) = Find(H, root, 0, k, hash(k))`.
- `Valid()` ties the ghost mirror to the real `main` fields. It also requires every reachable node to be well placed under its label, which is the hash chunks of the positions above it.
- `Insert`, `Remove` and `Lookup` are proved against `Get`.
- Each of them writes only I-nodes of the current root generation. This is what makes a read-write snapshot isolated, and the `Scenarios` module proves it.
- The retry-from-root loops of `insert`, `lookup` and `remove` are recursions. Each retry is bounded by the depth of the tomb met on the key's path, which every cleaning step moves up or removes.

## Model

| member | source | states |
|---|---|---|
| Bits.FlagPos | bits.go:11-17 | the flag is the single bit of the hash's 6-bit chunk at the level; testing it against the bitmap tests that chunk's bit; the position, computed with `bitCount64`, is the number of bitmap bits below the flag, at most the bitmap's population, and strictly below it when the bit is set |
| Bits.BitCount64Counts | bits.go:19-25 | the SWAR count `bitCount64` returns the number of set bits of its argument, at most 64: each line keeps the sum of the 2-bit, 4-bit and 8-bit fields, and the multiply's top byte is the sum of the bytes |
| Bits.BitCount32Counts | bits.go:27-33 | corrected (see Findings): with the multiply wrapping at 32 bits, `bitCount32` of a value below 2^32 is its number of set bits |
| Bits.BitCount32Overflows | bits.go:31-32 | as written, the multiply does not wrap at 32 bits: on 0x100, one set bit, `bitCount32` returns 257, the wrapped multiply 1 |
| Bits.SlotFacts | bits.go:13-15 | a flag has exactly one bit; the popcount of `bmp & (flag-1)` is the count of set bits below the chunk; that count is bounded by the population, strictly when the chunk's bit is set |
| Bits.PosOrder | bits.go:14-15 | set bits at lower chunks sit at strictly lower positions, so the compacted array is in ascending chunk order |
| Bits.SetFacts | node.go:92 | setting a clear bit adds one to the population, adds one to the position of every higher chunk, and sets exactly that chunk |
| Bits.ClearFacts | node.go:119 | clearing a set bit (`bmp ^ flag`) takes one from the population and from the position of every higher chunk, and clears exactly that chunk |
| Bits.SomeBit | bits.go:11-17 | a bitmap with a set bit among its low n bits has a present chunk below n |
| Bits.PairBitmap | node.go:32 | the bitmap of two distinct flags has population two, exactly those two bits, and the lower chunk at position 0 |
| Node.NewNode | node.go:28-47 | builds exactly the shape of newNode: one-branch C-nodes with a fresh I-node while the chunks agree, then a C-node with both leaves in ascending chunk order, or past level 64 a collision list holding both; every I-node it makes is fresh |
| Split.SplitFind | node.go:28-47 | below the node newNode builds, y's key finds y's value, x's key finds x's value, and every other key finds nothing |
| Split.SplitOK | node.go:28-47 | every node newNode builds is well placed under the labels its position gives it |
| Node.Inserted | node.go:82-94 | the bitmap gains the flag, the array grows by one, the new branch sits at the position, earlier slots are kept, and later slots shift up by one |
| Node.Updated | node.go:98-104 | same bitmap and length; only the slot at the position differs, and it holds the new branch |
| Node.Removed | node.go:108-121 | the bitmap loses the flag, the array shrinks by one, and the slot at the position is dropped with the rest kept in order |
| Node.CopyToGen | node.go:63-69 | a fresh I-node of the given generation holding the same main node |
| Node.Renewed | node.go:132-143 | same bitmap and length, leaves kept, and every I-node replaced by a fresh copy in the new generation holding the same main node |
| Node.Renewif | node.go:123-128 | the receiver itself when its generation already matches, else its renewal |
| Node.Untombed | node.go:152-154 | a leaf with the tomb's key, hash and value |
| Node.LEntry | node.go:163-166 | the head entry of a non-empty collision list |
| Node.LLookup | node.go:170-178 | the value of the first entry whose key is equal, or nothing |
| Node.LInserted | node.go:181-183 | the entry is prepended, so the new key's lookup gives the new value and every other key's lookup is unchanged |
| Node.LRemoved | node.go:186-195 | the list itself when no key matches, otherwise the list without its first match, the rest kept in order |
| Node.LRemovedLookup | node.go:186-195 | removing one key leaves every other key's lookup as it was |
| Node.LRemovedAbsent | node.go:190-192 | removing a key the list does not hold gives back the same list |
| Node.LLength | node.go:198-200 | the number of entries |
| Node.FirstValueAt | node.go:170-178 | a lookup yields the entry at the first index holding the key |
| Util.ToCompressed | util.go:27-44 | every I-node branch whose main node is a tomb becomes the tomb's leaf, all other branches stay, and the result is contracted at the level |
| Shrink.ContractKey | util.go:13-24 | contracting a C-node changes neither what a key finds below it nor what it finds once removed |
| Shrink.ContractTomb | util.go:14-18 | a contraction that changes the node turns a one-branch C-node into a tomb |
| Shrink.ContractOK | util.go:13-24 | a contracted C-node is still well placed |
| Shrink.ResurrectStep | util.go:50-55 | replacing tombs below a C-node by their leaves keeps the heap well formed and the view below it unchanged |
| Shrink.CleanStep | util.go:57-63 | clean at the parent of a tomb keeps the view, and moves the tomb on the hash's path up or removes it |
| Shrink.LRemovedNode | ctrie_internals.go:279-282 | the node iremove writes over a collision list: a tomb exactly when one entry is left, otherwise the shorter list |
| Shrink.LRemoveStep | ctrie_internals.go:278-286 | removing from a collision list unbinds the key's first entry and changes no other key |
| Removes.CleanParentView | util.go:86-97 | cleanParent's write (the tomb's leaf put back in the parent, then contracted) keeps the heap well formed and the view below the parent |
| Removes.LeafFound | ctrie_internals.go:246-253 | at a leaf under the key's chunk, the key finds the leaf's value exactly when the keys are equal |
| Removes.NoBitNone | ctrie_internals.go:226-231 | when the chunk's bit is clear, nothing is found and nothing is removed |
| Removes.LeafRemoveView | ctrie_internals.go:260-262 | removing the leaf and contracting unbinds its key and changes nothing outside the I-node |
| Ctries.NoBitCNode | ctrie_internals.go:81-88 | with the chunk's bit clear, the C-node (renewed if its generation differs) with the new leaf spliced in at the popcount position; with the bit set, only that position |
| Ctries.Ctrie.constructor | ctrie.go:41-47 | a valid, writable trie that maps every key to nothing |
| Ctries.Ctrie.Make | ctrie.go:49-55 | a valid trie over the given root, hash and read-only flag |
| Ctries.Ctrie.Clean | util.go:57-63 | the new heap is the old one with the parent's main node replaced by its C-node compressed and contracted at the given level, and nothing else; the view is unchanged and the tomb on the path moves up or goes |
| Ctries.Ctrie.IInsert | ctrie_internals.go:144-158 | on success the key is bound to the value below the reporting node and nothing else changes; after a tomb is cleaned, a retry that is closer to success |
| Ctries.Ctrie.CInsert | ctrie_internals.go:123-140 | the same for a C-node: a new leaf for a clear bit, descent or renewal at an I-node, and replacement or split at a leaf |
| Ctries.Ctrie.InsertEntry | ctrie_internals.go:47-52 | retried from the root: the key is bound to the value, and only nodes of the current generation are written |
| Ctries.Ctrie.Insert | ctrie.go:59-66 | refused on a read-only trie; afterwards the key maps to the value and every other key as before; no I-node of an older generation is written |
| Ctries.Ctrie.IRemove | ctrie_internals.go:220-291 | answers what the key found below the node and unbinds one binding of it; after a tomb is cleaned, a retry |
| Ctries.Ctrie.CleanParent | util.go:76-97 | the new heap is `ParentFolded`: when the parent is a C-node whose branch for the hash is still the I-node and the I-node holds a tomb, the parent takes its C-node with the tomb's leaf in that slot, contracted; otherwise nothing changes; the view is unchanged either way |
| Ctries.Ctrie.FoldTomb | ctrie_internals.go:263-268 | with no parent nothing changes; with one, the heap becomes what cleanParent makes of it; the view is unchanged and only current-generation nodes are written |
| Ctries.Ctrie.RemoveKey | ctrie_internals.go:63-70 | retried from the root: answers the key's old value and leaves the key mapped to what a second binding gives |
| Ctries.Ctrie.Remove | ctrie.go:74-79 | refused on a read-only trie; answers the old value; the key then maps to the next older duplicate of a collision list, if any, or to nothing, and every other key is unchanged |
| Ctries.Ctrie.ILookup | ctrie_internals.go:164-214 | corrected (see Findings, util.go:67): answers what the key finds below the node; a read-only trie writes nothing and always succeeds; a writable one may renew or clean, which keeps the view |
| Ctries.Ctrie.CleanReadOnly | util.go:65-74 | read-only: the tomb's value exactly when hash and key match, and success; writable: the parent is cleaned at its own level, and the call fails to be retried |
| Ctries.Ctrie.CleanReadOnlyAsWritten | util.go:65-74 | as written, cleaning at `lev-5`: the same results, under a precondition that excludes a collapsing path below the root, which this variant cannot handle |
| Ctries.RootEntombed | util.go:67 | on a root holding one I-node whose main node is a tomb, contraction at the root's level keeps a C-node, while contraction at level 1 (what `lev-5` gives below the root) turns the root into a tomb, which is not a well-placed root |
| Ctries.Ctrie.LookupKey | ctrie_internals.go:54-61 | corrected (see Findings, util.go:67): retried from the root: the key's value, with the view unchanged |
| Ctries.Ctrie.Lookup | ctrie.go:68-72 | corrected (see Findings, util.go:67): the key's value; the map is unchanged, a read-only trie is not written at all, and no I-node of an older generation is written |
| Ctries.Ctrie.RdcssRoot | ctrie_internals.go:309-317 | refused on a read-only trie; the root becomes the new I-node and the view the one it stands for |
| Ctries.FreshRootCopy | node.go:63-69 | a fresh copy of the root in a fresh generation that finds what the root finds |
| Ctries.Ctrie.SnapshotReadWrite | ctrie.go:83-90 | the original moves to a root copy in a fresh generation, the snapshot gets another copy in another fresh generation, both stand for the old map, and each is shielded from the other's writes |
| Ctries.Ctrie.SnapshotReadOnly | ctrie.go:92-101 | a read-only trie is its own snapshot; otherwise the original moves to a root copy in a fresh generation, and the read-only snapshot keeps the old root, view and map, shielded from the original's writes |
| Ctries.Ctrie.SnapshotReadOnlyAsWritten | ctrie.go:92-101 | as written: the read-only snapshot is handed the root the original has just installed and goes on writing through |
| Ctries.Ctrie.Clear | ctrie.go:121-133 | refused on a read-only trie; the root becomes a fresh empty one in a fresh generation, and every key maps to nothing |
| Scenarios.InsertApart | ctrie.go:59-66 | an insert into a trie leaves a snapshot shielded from it unchanged, and still shielded |
| Scenarios.RemoveApart | ctrie.go:74-79 | a removal from a trie leaves a shielded snapshot unchanged |
| Scenarios.LookupApart | ctrie.go:68-72 | a lookup, which may clean tombs, leaves a shielded snapshot unchanged |
| Scenarios.SnapshotThenInsert | ctrie.go:83-90 | after a read-write snapshot and an insert into the original, the original has the new binding and the snapshot the old map |
| Scenarios.ReadOnlySnapshotThenInsert | ctrie.go:92-101 | with the read-only snapshot taken as intended, an insert into the original leaves the snapshot with the old map |
| Scenarios.ReadOnlySnapshotAsWrittenSeesInsert | ctrie.go:99 | with the read-only snapshot as written, the snapshot's root is the original's root, and an insert into the original is found through the snapshot's root |
| Scenarios.InsertThenLookup | ctrie.go:57-72 | a lookup after an insert answers the inserted value |
| Scenarios.SnapshotThenClear | ctrie.go:121-133 | after a snapshot and a clear, the original maps every key to nothing and the snapshot keeps the old map |
| Traversal.Oldest | node.go:156-160 | a collision list's entries as its Map hands them out: the oldest first |
| Traversal.Deliver | ctrie_internals.go:20-24 | what reaches the consumer is a prefix of what traverse sends; cancellation wins exactly when more than the limit is sent, and then exactly the limit was delivered |
| Traversal.DeliverExtend | ctrie_internals.go:22-23 | once cancellation has won, nothing sent later is delivered |
| Traversal.SpreadAppend | ctrie_internals.go:13 | a C-node's branches send their entries in array order |
| Traversal.Send | ctrie_internals.go:20-24 | one select: the entry is delivered, or cancellation wins |
| Traversal.Traverse | ctrie_internals.go:9-39 | the delivered entries and the cancel flag are those of the node's entries, in array order, recursing into I-nodes, listing collision lists oldest first and, in this version, tombs |
| Traversal.TraverseBranches | ctrie_internals.go:13-26 | a C-node's branches are sent in order until cancellation wins |
| Traversal.SendAll | ctrie_internals.go:27-36 | a collision list's entries are sent in order until cancellation wins |
| Traversal.Complete | ctrie_internals.go:9-39 | every binding a key finds below a node is among the entries traversal sends when tombs are sent |
| Traversal.TombSkipped | ctrie_internals.go:11-37 | as written, in any heap where a root holds one I-node whose main node is a tomb, the root binds the tomb's key, yet traversal without a tomb case sends nothing; with one it sends the entry |
| Traversal.Covers | ctrie.go:139-147 | every binding of a trie is among the entries a full traversal of it sends |
| Traversal.Iterate | ctrie.go:139-147 | corrected (see Findings, ctrie_internals.go:11-37): the entries traversal sends from the trie's root as it was, cut off at the cancellation limit; the map is unchanged |
| Traversal.Size | ctrie.go:150-161 | corrected (see Findings, ctrie_internals.go:11-37): the number of entries a full iteration yields; the map is unchanged |
| Traversal.IterateAsWritten | ctrie.go:139-147 | as written: the entries a traversal without a tomb case sends from the trie's root as it was, cut off at the cancellation limit; the map is unchanged |
| Traversal.SizeAsWritten | ctrie.go:150-161 | as written: the number of entries the as-written iteration yields, tombs not counted; the map is unchanged |
| Scenarios.SizeAsWrittenMissesTomb | ctrie_internals.go:11-37 | on a valid trie whose root holds one I-node with a tomb, the tomb's key stays bound, yet `Size` as written counts 0 |
| Lists.IsEmpty | list_test.go:9-20 | true exactly for the list without elements |
| Lists.Add | list_test.go:22-45 | prepends: the head is the new element and the tail the old list |
| Lists.Head | list_test.go:9-45 | nothing for the empty list, else the first element |
| Lists.Tail | list_test.go:9-45 | nothing for the empty list, else the elements after the first |
| Lists.Length | list_test.go:254-262 | the number of elements |
| Lists.Get | list_test.go:76-106 | the i-th element from the head, or nothing exactly when i is out of range |
| Lists.Insert | list_test.go:76-106 | an error exactly when the index is past the end; otherwise the element is placed at that index and the rest is kept in order |
| Lists.Remove | list_test.go:108-209 | an error exactly when there is no element at the index; otherwise the list without it, the rest in order |
| Lists.FindIndex | list_test.go:234-252 | the index of the first element that satisfies the predicate, or -1 exactly when none does |
| Lists.Find | list_test.go:211-252 | the first element that satisfies the predicate, exactly the element at the index FindIndex returns, or nothing exactly when none does |
| Lists.Map | list_test.go:264-273 | the function applied to every element, the oldest added first |
| Paths.LastIndex | config/path.go:65 | the last position holding the character, or -1 exactly when it is absent |
| Paths.Split | config/path.go:28 | the input splits into a part that is empty or ends in '/' and a part without '/' |
| Paths.IndexDouble | config/path.go:53 | the first position of "//" (a "//" starts there and none starts before it), or -1 exactly when there is none |
| Paths.ReplaceShortens | config/path.go:57 | one replacement pass over a string with "//" shortens it, so the loop ends |
| Paths.SquashReplace | config/path.go:57 | a replacement pass does not change the string with its slash runs collapsed |
| Paths.SquashNoDouble | config/path.go:51-61 | a string without "//" is its own collapsed form |
| Paths.DeduplicateSlash | config/path.go:51-61 | the input with every run of slashes collapsed into one; no "//" is left |
| Paths.RemoveUrlPrefix | config/path.go:63-69 | the text after the last ':': a suffix of the input without ':', preceded in the input by ':' whenever the input has one; the input itself when it has no ':' |
| Paths.Cleaned | config/path.go:14-15 | the input without URL prefix and slash runs has neither ':' nor "//" |
| Paths.Trailing | config/path.go:16-31 | nil path with "Nil path." exactly for an empty input; no error exactly when it ends in '/', and then the input itself; every path returned is normalised; with no '/' at all, the input with '/' appended and the "No slashes" error; with a '/' but not at the end, everything through the last '/' (filepath.Split's directory) and the "No trailing slash" error |
| Paths.NewPath | config/path.go:13-32 | the path and error the switch gives for the input with URL prefix and slash runs removed |
| Paths.NewPathIdempotent | config/path.go:13-32 | a normalised path is returned as it is, without an error |
| Paths.NewPathNormal | config/path.go:13-32 | every path NewPath returns is normalised, so making a path of it again returns it unchanged, without an error |
| Paths.NoSlashPath | config/path.go:24-26 | a name without '/' and ':' becomes a path by a '/' appended, with the "No slashes" error |
| Paths.PathString | config/path.go:44-49 | "<nil>" for a nil path, else the path itself |
| Paths.Joined | config/path.go:35-41 | the receiver for a nil sub-path; any other result is normalised |
| Paths.Append | config/path.go:35-41 | the receiver for a nil sub-path, else NewPath of the two joined by '/' |
| Paths.AppendJoins | config/path.go:35-41 | appending one normalised path to another concatenates them with the slash between them collapsed |
| Filenames.NewFilename | config/filename.go:10-20 | nil exactly for an empty input; otherwise the text after the last '/': a suffix of the input without '/', preceded in the input by '/' whenever it is shorter than the input; empty when the input ends in '/'; the input itself when it has no '/' |
| Filenames.FilenameString | config/filename.go:23-28 | "<nil>" for a nil name, else the name itself |
| Configs.StorageSubdirPath | config/config.go:17 | the storage sub-directory made a path is "storage/" |
| Configs.Config.constructor | config/config.go:10-13 | a configuration with the given root and database name |
| Configs.Config.DbPath | config/config.go:37-43 | nil exactly when there is no database name; else the root's string followed by the name |
| Configs.Config.RootPath | config/config.go:50-53 | the root's string |
| Configs.Config.StoragePath | config/config.go:45-48 | the root with "storage/" appended; under a normalised root, the root followed by "storage/" |
| Configs.Config.FilePath | config/config.go:55-57 | the storage path's string followed by the name's; under a normalised root, root + "storage/" + name |
| Configs.Config.WithRoot | config/config.go:59-62 | the root becomes NewPath of the argument, its error dropped, and is normalised; the database name is kept; the receiver is returned |
| Configs.Config.WithDB | config/config.go:64-67 | the database name becomes NewFilename of the argument; the root is kept; the receiver is returned |
| Configs.RootThenFile | config/config.go:55-62 | after WithRoot with a normalised path, RootPath is that path and FilePath of a plain name is path + "storage/" + name |
| Events.Digits | events/events.go:11-13 | a non-empty string of decimal digits without a leading zero |
| Events.DigitsRoundTrip | events/events.go:11-13 | reading the digits back gives the number |
| Events.TypeString | events/events.go:11-13 | a non-empty string that starts with '-' exactly for a negative type |
| Events.TypeStringRoundTrip | events/events.go:11-13 | the rendering reads back as the same type number |
| Events.TypeStringInjective | events/events.go:11-13 | different types render differently |
| Events.Registry.constructor | events/events.go:43-45 | the package state before any call: not initialised, counter 0, no map |
| Events.Registry.AddType | events/events.go:47-57 | the first call initialises and returns 0; each call returns the counter and then increments it; the key is bound to the number returned, which is above every number handed out before; StringToType then gives it |
| Events.Registry.StringToType | events/events.go:59-61 | the number bound to the key, or 0 for a key not registered |
| Events.AddTwo | events/events.go:47-61 | two calls return consecutive numbers, and the first key keeps its number unless the second call re-adds it |
| Events.FirstType | events/events.go:47-61 | on a fresh registry the first type is 0, the same number an unregistered key reads as |

## Left out

- Bits.BitCount32Counts: `bitCount32` has no caller in the source; it is modelled for the finding on its multiply only.
- Node.NewNode: computes the bitmap inside each branch (`Flag(xidx)` when the chunks agree, both flags otherwise). The value is the source's single `(1 << xidx) | (1 << yidx)`, which for equal chunks is the one flag.
- Concurrency is not modelled: GCAS and its rollback, RDCSS descriptors, `readRoot`'s completion, `rdcssComplete`, `rdcssCompleteAbort`, the `failed`/`prev` markers of atomic.go, and linearizability. On one thread every GCAS and RDCSS succeeds, so the source's retry loops around them run once.
- Ctries.Ctrie.CleanParent: the recursive retry after a failed GCAS is never taken on one thread and is not modelled.
- Ctries.Ctrie.Clean: drops `clean`'s boolean result, which every caller ignores.
- Ctries.Ctrie.IRemove: the `(nil, false, true)` answer after a failed GCAS at a collision list cannot occur on one thread.
- The `panic("invalid state")` branches are excluded by `Valid()`. `assertReadWrite` and `casRoot`'s check become a precondition `!readOnly`.
- Hashing is a function parameter `hash: Key -> bv64`. `HashFactory`, FNV-1a and the nil-factory default of `newCtrie` are not modelled.
- Keys are byte sequences compared by equality. Values are a type parameter.
- Traversal.Iterate: the channel and goroutine become a returned sequence. The cancel channel becomes an optional number of entries after which cancellation wins. A goroutine leak when the consumer stops reading is not modelled.
- Traversal.Traverse: emits a tomb's entry (the corrected behaviour, see Findings). The as-written traversal is the same method with tombs not sent, exhibited by `Traversal.TombSkipped`.
- Traversal.Size: the `uint` counter does not wrap.
- Ctries.Ctrie.ILookup: meets a tomb through the corrected `Ctries.Ctrie.CleanReadOnly`; the as-written clean, and the failure it leads to on a writable trie, are `Ctries.Ctrie.CleanReadOnlyAsWritten` and `Ctries.RootEntombed`.
- Ctries.Ctrie.LookupKey: retries the corrected `Ctries.Ctrie.ILookup`, so it returns the tomb's value where the source, as written, fails.
- Ctries.Ctrie.Lookup: calls the corrected `Ctries.Ctrie.LookupKey`, for the same reason.
- Traversal.Iterate: runs the corrected traversal, which sends a tomb's entry; the as-written iteration is `Traversal.IterateAsWritten`.
- Traversal.Size: counts the corrected iteration; the as-written count is `Traversal.SizeAsWritten`, which misses tombs (`Scenarios.SizeAsWrittenMissesTomb`).
- Ctries.Ctrie.Remove: states what a removed key maps to afterwards through `Rest`. No lemma relates `Rest` after an `Insert` to the map before it, so "insert then remove" is not stated.
- Lists: list.go, the list's implementation, is not part of this model. The list is a cons datatype whose operations are specified by what list_test.go checks.
- Events.Registry.AddType: the `Type` counter is an unbounded integer. Go's `int` wrap-around after 2^63 additions is not modelled.
- The package-level variables `initialized`, `type_index` and `type_map` are fields of a `Registry` object. `Event`, `New`, `Subscribe`, `loop`, `Close`, `Events` and `Merge` of events.go use timers, channels and goroutines and are not modelled.
- config.go's `dc`, `New`, `DefaultRoot` and `Mkdirs` need the home directory and the file system and are not modelled.
- The literal examples of the test files are not stated one by one. Their general form is proved instead: `Paths.NoSlashPath`, `Paths.AppendJoins`, `Configs.StorageSubdirPath` and `Configs.RootThenFile`.

## Findings

| source | as written | input that shows it | evidently intended | confidence | as-written member | corrected member |
|---|---|---|---|---|---|---|
| util.go:67 | `cleanReadOnly` cleans the parent with `clean(p, lev-5, c)`, one level above the parent's real level `lev-6` | insert k1 and k2 whose hashes agree on chunks 0 and 1, then remove k2, which leaves the level-6 I-node holding a tomb; a lookup of k1 on the writable trie then runs `clean(root, 1)`, which contracts the root into a tomb, and the retry calls `clean(nil, …)` | clean the parent at its own level `lev-w`, as ctrie_internals.go:151 and 276 do | not executed | Ctries.Ctrie.CleanReadOnlyAsWritten, Ctries.RootEntombed | Ctries.Ctrie.CleanReadOnly |
| ctrie.go:99 | `Snapshot(ReadOnly)` hands the snapshot `c.readRoot()`, which is the root copy just installed and which the original keeps writing through | take a read-only snapshot of a writable trie, then insert k into the original: k's new value is found through the snapshot's root | a stable, point-in-time snapshot (ctrie.go:81, 105): the snapshot keeps the old root | not executed | Ctries.Ctrie.SnapshotReadOnlyAsWritten, Scenarios.ReadOnlySnapshotAsWrittenSeesInsert | Ctries.Ctrie.SnapshotReadOnly, Scenarios.ReadOnlySnapshotThenInsert |
| ctrie_internals.go:11-37 | `traverse` has cases for C-nodes and collision lists only, so an I-node whose main node is a tomb sends nothing | insert k1 and k2 whose hashes agree on chunks 0 and 1, then remove k2: the level-6 I-node is left holding k1's tomb; `Size` then counts 0, while a lookup through `Snapshot(ReadOnly)` finds k1 (the read-only branch of `cleanReadOnly`, util.go:65-74), and `Get` binds it | every binding is yielded by `Iterate` and counted by `Size` | not executed | Traversal.TombSkipped, Traversal.SizeAsWritten, Scenarios.SizeAsWrittenMissesTomb | Traversal.Complete, Traversal.Covers, Traversal.Iterate, Traversal.Size |
| bits.go:27-33 | `bitCount32` takes a `uint64`, so `x *= 0x01010101` does not wrap at 32 bits and `x >> 24` keeps the product's bytes above the fourth | 0x100, which has one set bit: the product is 0x0101010100, and the result is 0x101 = 257 | the population count of a 32-bit value, as a `uint32` multiply gives; the function has no caller | not executed | Bits.BitCount32Overflows | Bits.BitCount32Counts |
