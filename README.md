# SnAPI.GameFramework core, modelled in Dafny

This project models the sequential cores of the SnAPI.GameFramework C++ game
framework, together with its Python Doxygen-to-MkDocs page generator, and
proves properties of the model. Each core source file becomes one Dafny
module, written in the form the source takes:

- **Generational storages and registries** (`handle.dfy`, `object_registry.dfy`,
  `object_pool.dfy`, `component_storage.dfy`, `dense_runtime.dfy`). These are
  classes over `seq` and `map` fields: slot arrays with generation counters,
  free lists, swap-remove dense arrays, UUID indexes and deferred destruction.
  The proofs cover the back-pointer invariants, stale-handle rejection and
  every error code.
- **Node hierarchy and component bookkeeping** (`world_hierarchy.dfy`,
  `world_nodes.dfy`, `world_destroy.dfy`, `world_components.dfy`,
  `world_ticks.dfy`, `node_graph.dfy`, `base_node.dfy`).
  - `WorldNodeRuntime` covers parent and child links, the root list, cycle
    rejection and the iterative subtree destroy.
  - The world also keeps component attachments and the tick schedule.
  - `NodeGraph` covers deferred node destruction, component-type mask words
    and the relevance sweep.
- **RPC routing and wire codecs** (`rpc.dfy`, `base_component.dfy`, `wire.dfy`,
  `net_rpc.dfy`, `net_replication.dfy`). These cover method lookup through
  base types and routing by flags and network role. They also cover the
  big-endian payload, RPC request/response layouts and the 49-byte
  replication header, each with its round trip, plus replication gathering
  and the pending-link queues.
- **Physics listener bookkeeping** (`physics_system.dfy`). Listener tokens,
  the FIFO event queue and the sleep/wake dispatch plan.
- **Variant and asset references** (`variant.dfy`, `asset_ref.dfy`, `text.dfy`).
- **Editor and UI state** (`browser_path.dfy`, `editor_layout.dfy`,
  `property_panel.dfy`, `game_runtime.dfy`, `editor_core_services.dfy`,
  `service_host.dfy`, `gameplay_host.dfy`, `ui_tree.dfy`, `ui_system.dfy`,
  `editor_asset_service.dfy`).
  - Content-browser paths and listing.
  - Property-panel integer conversions.
  - The UTF-8 decoder. Its bit layout is that of section 3 of RFC 3629.
  - Undo/redo stacks and the Play-In-Editor Stopped/Playing/Paused machine.
  - The service dependency order, registration, initialisation with rollback,
    and shutdown.
  - Player lookup and auto-possess scoring.
  - The UI context tree and the one-to-one viewport/context map.
  - Asset discovery.
- **API page generator** (`mkdocs_api.dfy`). The XML is a Dafny `Element`
  tree. The generator's inline, list, description, member, enum, compound and
  index rendering are functions, and its `DoxygenApiGenerator` is a class.

`common.dfy` holds the shared vocabulary: `Result`/`Option`, the framework's
error codes, fixed-width integer types, UUIDs and sequence helpers.

Values the model cannot compute are parameters of the operations that need
them. These are the verdicts of code outside the core: constructors,
reflection, factories, field codecs, the physics backend, services'
`Initialize` results, and the asset manager's listing. Every source path
below is relative to the repository root.

## Model

| member | source | states |
|---|---|---|
| Handles.FromId | include/Handle.h:41-44 | a handle built from a UUID carries that UUID and no runtime key |
| Handles.NullHandleFacts | include/Handle.h:76-89 | the default handle is null and has no key; `operator bool` is the negation of IsNull; a handle is null exactly when it compares equal to the null handle |
| Handles.SameIgnoresRuntimeKey | include/Handle.h:105-108 | equality compares UUIDs only: handles with the same UUID are equal whatever their token, index and generation |
| Handles.RuntimeKeyPresence | include/Handle.h:95-98 | a runtime key is present exactly when the pool token is not 0 and the index is not u32 max |
| Handles.Borrowed | include/Handle.h:130-146 | returns the fast path's pointer when it hits and otherwise the UUID fallback's (never anything for a null handle); on a fast hit the handle comes back as it was, on a fallback hit it carries the entry's runtime key (or the invalid key when the entry has none), on a miss it is unchanged; the UUID is never changed |
| ObjectRegistry.ResolveTarget | include/ObjectRegistry.h:487-505 | a typed extraction yields a node only from a Node entry, a component only from a Component entry, and an Other pointer only when the recorded type matches exactly |
| ObjectRegistry.WithSlotBound | include/ObjectRegistry.h:552-569 | binding an entry with a runtime key grows the pool's slot vector as needed and writes an occupied slot with the entry's UUID, generation and target there; every other slot is untouched |
| ObjectRegistry.Registry.constructor | include/ObjectRegistry.h:649-652 | a new registry has no entries, one (reserved) pool slot vector and no fallback counters |
| ObjectRegistry.Registry.AcquireRuntimePoolToken | include/ObjectRegistry.h:74-85 | the token is the current pool count, which starts at 1, so tokens strictly increase and are never 0 or reused; at u32 overflow it returns 0 and changes nothing |
| ObjectRegistry.Registry.ReleaseRuntimePoolToken | include/ObjectRegistry.h:94-112 | token 0 and unknown tokens are ignored; otherwise every slot of that pool is reset while the pool itself stays allocated, so the token is never handed out again |
| ObjectRegistry.Registry.RegisterInternal | include/ObjectRegistry.h:595-647 | a nil UUID is ignored; otherwise the entry is inserted or replaced, the old entry's runtime slot is cleared first and the new one bound |
| ObjectRegistry.Registry.ClearRuntimeSlot | include/ObjectRegistry.h:571-593 | the slot table becomes the one with the entry's slot cleared when it still holds the entry's generation |
| ObjectRegistry.Registry.BindRuntimeSlot | include/ObjectRegistry.h:552-569 | the slot table becomes the one with the entry bound into its slot |
| ObjectRegistry.Registry.Unregister | include/ObjectRegistry.h:226-237 | an unknown id changes nothing; otherwise exactly that entry is removed and its runtime slot is cleared if the generation still matches |
| ObjectRegistry.Registry.Resolve | include/ObjectRegistry.h:246-255 | nullptr for a nil or unregistered id; a non-null result is the typed target of the id's entry, and for Other the recorded type equals the requested one |
| ObjectRegistry.Registry.FastResolve | include/ObjectRegistry.h:319-335 | the fast path yields an object only when the key is present, in range, and the slot is occupied with the same generation and UUID |
| ObjectRegistry.Registry.ResolveFastOrFallback | include/ObjectRegistry.h:303-395 | a nil id gives nullptr and no identity; a fast-path hit keeps the caller's key; otherwise the UUID lookup decides, and on a hit the identity comes from the entry, the miss counter of the id goes up by one and the warning fires exactly when ShouldWarn holds for the new count |
| ObjectRegistry.BoundEntryHitsFastPath | include/ObjectRegistry.h:552-569 | after a registration with a runtime key, that key resolves on the fast path to the newly registered target |
| ObjectRegistry.StaleClearKeepsSlot | include/ObjectRegistry.h:589-592 | clearing for an entry whose generation no longer owns the slot leaves the slot table unchanged |
| ObjectRegistry.ClearedSlotMisses | include/ObjectRegistry.h:589-592 | after a clear that applies, the slot is unoccupied and no fast lookup hits it |
| ObjectRegistry.ShouldWarn | include/ObjectRegistry.h:372 | the source's test itself: count at most 4, or `count & (count - 1)` zero, with `&` taken bit by bit (BitAnd) |
| ObjectRegistry.BitAnd | include/ObjectRegistry.h:372 | bitwise and of two naturals is at most either operand |
| ObjectRegistry.BitTestIsPowerOfTwo | include/ObjectRegistry.h:372 | for every positive n, `n & (n - 1)` is zero exactly when n is a power of two |
| ObjectRegistry.PowersOfTwo | include/ObjectRegistry.h:372 | the powers of two are exactly the numbers 2^k |
| ObjectRegistry.WarningSchedule | include/ObjectRegistry.h:372 | for every miss count, the diagnostic fires exactly when the count is at most 4 or equals 2^k for some k |
| ObjectRegistry.OddCountsAboveFourAreSilent | include/ObjectRegistry.h:372 | an odd miss count above 4 never emits the diagnostic |
| ObjectPool.NextGeneration | include/ObjectPool.h:587-595 | the next generation is never 0 and never the previous one: it is prev + 1, or 1 after u32 max |
| ObjectPool.MakeHandle | include/ObjectPool.h:603-616 | the reported handle carries the entry's UUID and, when the slot index fits a runtime key, the pool token, slot index and generation |
| ObjectPool.VisibleSlotsExact | include/ObjectPool.h:454-534 | the slots ForEach/ForEachAll visit are exactly the live entries (also the pending ones for ForEachAll), each once, in increasing slot order |
| ObjectPool.ForEachSkipsPending | include/ObjectPool.h:454-496 | ForEach visits a subset of ForEachAll: exactly the visited slots that are not pending destruction |
| ObjectPool.EndFrameKeepsInv | include/ObjectPool.h:382-400 | releasing every pending slot keeps the pool invariant (index, free list and pending list consistent with the entries), with the pending slots appended to the free list |
| ObjectPool.AllocateKeepsShape | include/ObjectPool.h:641-652 | AllocateSlot takes the last freed slot or appends an empty one, and the taken slot is empty and off the free list |
| ObjectPool.FillKeepsInv | include/ObjectPool.h:96-112 | writing a live entry for an unindexed UUID into the allocated slot and indexing it restores the pool invariant |
| ObjectPool.Pool.constructor | include/ObjectPool.h:41-47 | a new pool is empty and holds a fresh registry token that was never issued before |
| ObjectPool.Pool.AllocateSlot | include/ObjectPool.h:641-652 | freed slots are reused last-freed-first; otherwise storage grows by exactly one empty slot; index and pending list are untouched |
| ObjectPool.Pool.CreateWithId | include/ObjectPool.h:82-114 | nil UUID gives InvalidArgument and an indexed UUID (pending ones included) gives AlreadyExists, both leaving the pool unchanged; a slot index too large for a runtime key gives InternalError with the index and pending list untouched and the slot handed back to the free list (a reused slot leaves entries and free list as they were, a new one stays as an empty entry on the free list); otherwise the allocated slot gets the next generation and the object, the UUID is indexed to it, other slots are unchanged, and the returned handle borrows the new object |
| ObjectPool.Pool.Occupy | include/ObjectPool.h:101-108 | the allocated empty slot gets the next generation, the UUID and the object, the UUID is indexed to it, the invariant is restored and the returned handle borrows the object |
| ObjectPool.Pool.CreateFromSharedWithId | include/ObjectPool.h:133-163 | a null object gives InvalidArgument; otherwise it behaves as CreateWithId |
| ObjectPool.Pool.ResolveIndex | include/ObjectPool.h:618-634 | a handle resolves exactly when it has a runtime key of this pool, its index is in range, and both generation and UUID match the slot |
| ObjectPool.Pool.Borrowed | include/ObjectPool.h:237-252 | a stale handle or a pending object yields nothing; otherwise the slot's object |
| ObjectPool.Pool.BorrowedById | include/ObjectPool.h:260-280 | a UUID borrows exactly when it is indexed and its entry is not pending destruction |
| ObjectPool.Pool.HandleByIdSlow | include/ObjectPool.h:215-235 | NotFound exactly for an unknown or pending UUID; otherwise a runtime-key handle that borrows the object |
| ObjectPool.Pool.IsPendingDestroy | include/ObjectPool.h:421-435 | only a resolving handle can report pending destruction |
| ObjectPool.Pool.DestroyLater | include/ObjectPool.h:327-353 | NotFound (pool unchanged) for a handle that does not resolve or names an empty slot; otherwise the slot is queued once however often this is called, and the handle stops borrowing |
| ObjectPool.Pool.DestroyLaterById | include/ObjectPool.h:355-380 | succeeds exactly for an indexed UUID; the slot is queued once, and the UUID stops borrowing but stays indexed |
| ObjectPool.Pool.MarkPending | include/ObjectPool.h:339-352 | marking an empty slot fails with NotFound; marking a live one sets the flag and queues the slot only the first time |
| ObjectPool.Pool.EndFrame | include/ObjectPool.h:382-400 | every pending slot is emptied, unindexed and appended to the free list in queue order; the queue becomes empty and no other slot or index entry changes |
| ObjectPool.Pool.Clear | include/ObjectPool.h:407-414 | entries, index, free list and pending list are all emptied at once |
| ObjectPool.Pool.ForEach | include/ObjectPool.h:454-534 | the visited handles are those of VisibleSlots, in slot order |
| ObjectPool.ReusedSlotRejectsOldHandle | include/ObjectPool.h:96-102 | a reused slot carries the next generation, so a handle to its previous occupant no longer resolves |
| ObjectPool.FreedSlotRejectsHandles | include/ObjectPool.h:390-396 | a freed slot has a nil UUID, so no non-null handle resolves or borrows through it |
| ComponentStorage.ComponentTypeRegistry.constructor | include/ComponentStorage.h:78-80 | the type registry starts with no types and version 0 |
| ComponentStorage.ComponentTypeRegistry.TypeIndex | include/ComponentStorage.h:40-52 | a known type gets its existing index with map and version unchanged; a new type gets the current count and the version goes up by one (u32 wrap-around); afterwards the type maps to the returned index |
| ComponentStorage.ComponentTypeRegistry.WordCount | include/ComponentStorage.h:69-74 | the word count is ceil(types / 64): enough 64-bit words for every type and no spare word |
| ComponentStorage.NewIndexIsUnused | include/ComponentStorage.h:48-50 | with indices below the count and distinct, the index handed to a new type is not used by any registered type |
| ComponentStorage.SparseSet | include/ComponentStorage.h:792-807 | for an owner with a runtime key the sparse arrays grow as needed (new cells hold the invalid dense index) and the owner's slot records the dense index and its generation; all other cells keep their values |
| ComponentStorage.SparseCleared | include/ComponentStorage.h:809-825 | for an owner with a runtime key inside the arrays the slot is reset to the invalid dense index and generation 0; everything else is kept |
| ComponentStorage.DestroyCallsSnoc | include/ComponentStorage.h:558-564 | the OnDestroy calls for a queue extended by one entry are the earlier calls followed by that entry's |
| ComponentStorage.UnregisterCalls | include/ComponentStorage.h:566-569 | one unregistration per queued entry, in queue order |
| ComponentStorage.OnDestroyPrecedesUnregister | include/ComponentStorage.h:556-572 | in the EndFrame trace every OnDestroy comes before every unregistration |
| ComponentStorage.DestroyCallsInOrder | include/ComponentStorage.h:558-564 | every queued component with a live pointer gets its OnDestroy, in queue order |
| ComponentStorage.DestroyCallPresent | include/ComponentStorage.h:558-564 | every queued component with a live pointer gets an OnDestroy call |
| ComponentStorage.Storage.constructor | include/ComponentStorage.h:833-839 | a new storage is empty and owns a fresh pool |
| ComponentStorage.Storage.ResolveFromSparse | include/ComponentStorage.h:672-704 | the sparse path answers only for an owner with a runtime key whose slot names an in-range dense entry of the same owner UUID and, when recorded, the same generation |
| ComponentStorage.Storage.ResolveFromOwnerId | include/ComponentStorage.h:706-733 | the fallback answers only for a non-nil owner UUID whose map entry names an in-range dense entry of that owner |
| ComponentStorage.Storage.ResolveDenseIndex | include/ComponentStorage.h:646-654 | whichever path answers, the entry found belongs to the owner UUID and is the one the owner map names; every owner in the map is found |
| ComponentStorage.Storage.Borrowed | include/ComponentStorage.h:526-539 | a component is returned only for an owner that has one |
| ComponentStorage.Storage.SetSparseOwnerIndex | include/ComponentStorage.h:792-807 | the sparse arrays become SparseSet of the old ones; dense array, owner map and queue are unchanged |
| ComponentStorage.Storage.ClearSparseOwnerIndex | include/ComponentStorage.h:809-825 | the sparse arrays become SparseCleared of the old ones; nothing else changes |
| ComponentStorage.Storage.AddWithId | include/ComponentStorage.h:237-270 | an owner that already has a component gives AlreadyExists and changes nothing; a pool failure is passed on with the dense side unchanged; on success the component is registered as a Component entry, appended to the dense array, mapped by owner and sparse slot, and announced with exactly one OnCreate |
| ComponentStorage.Storage.AppendEntry | include/ComponentStorage.h:264-267 | the dense array gains the entry at its end, the owner map gains the owner if absent, and the sparse slot points at the new entry |
| ComponentStorage.Storage.Remove | include/ComponentStorage.h:315-347 | an owner without a component is a no-op; otherwise the dense entry is swap-removed, the removed owner is dropped from the owner map and sparse slot, the moved entry is re-pointed to the hole, and the component is queued for EndFrame when its pool still indexes it |
| ComponentStorage.Storage.SwapRemoveAt | include/ComponentStorage.h:328-343 | the swap-remove with the owner-map and sparse edits of the removed and the moved entry |
| ComponentStorage.Storage.EndFrame | include/ComponentStorage.h:556-572 | the call trace is every OnDestroy in queue order followed by every unregistration; the queued ids leave the registry, the queue is emptied and the pool flushed; dense and owner maps are unchanged |
| ComponentStorage.CallOnDestroy | include/ComponentStorage.h:558-564 | the first pass makes exactly the OnDestroy calls of DestroyCalls |
| ComponentStorage.UnregisterAll | include/ComponentStorage.h:566-569 | the second pass unregisters exactly the queued ids |
| ComponentStorage.PendingIds | include/ComponentStorage.h:566-569 | the ids of the queue, and nothing else |
| ComponentStorage.AppendKeepsOwnerMap | include/ComponentStorage.h:264-266 | appending an entry for an owner new to the map keeps the owner map and dense array in step |
| ComponentStorage.SwapRemoveKeepsOwnerMap | include/ComponentStorage.h:328-343 | swap-remove with the matching owner-map edits keeps `ownerToDense[dense[i].owner.id] == i` |
| DenseRuntime.Retired | include/WorldEcsRuntime.h:789-797 | a destroyed or cleared slot is dead, has a nil UUID and no dense index, and its generation moves to a different non-zero value (u32 max wraps to 1) |
| DenseRuntime.NonZero | include/WorldEcsRuntime.h:728-731 | an acquired slot's generation is never 0: 0 becomes 1, anything else is kept |
| DenseRuntime.DestroyedSlotsView | include/WorldEcsRuntime.h:751-798 | destroying slot `s` retires it and leaves every other slot's UUID, generation and liveness unchanged |
| DenseRuntime.DestroyKeepsInv | include/WorldEcsRuntime.h:751-798 | destroying a live slot keeps the storage invariant: the dense arrays shrink by one, `denseSlotIndices[slots[s].denseIndex] == s` for every live slot, the free list gains `s`, and the UUID leaves the index |
| DenseRuntime.DestroyKeepsLinks | include/WorldEcsRuntime.h:773-784 | the swap-remove keeps the dense-to-slot back-pointers of every remaining live slot |
| DenseRuntime.DestroyKeepsIds | include/WorldEcsRuntime.h:789 | the UUID index keeps naming exactly the live slots |
| DenseRuntime.DestroyKeepsFree | include/WorldEcsRuntime.h:797 | the free list keeps listing exactly the dead slots, each once |
| DenseRuntime.AllRetired | include/WorldEcsRuntime.h:555-569 | after Clear every slot is retired |
| DenseRuntime.Storage.constructor | include/WorldEcsRuntime.h:268-271 | a requested token of 0 is replaced by 1; the storage starts empty |
| DenseRuntime.Storage.MakeHandle | include/WorldEcsRuntime.h:679-687 | the handle names the slot index and the storage token |
| DenseRuntime.Storage.ResolveSlot | include/WorldEcsRuntime.h:689-708 | a handle resolves exactly when it is the current handle of a live slot (same token, index, generation and UUID); the resolved slot's dense index is in range |
| DenseRuntime.Storage.Resolve | include/WorldEcsRuntime.h:366-376 | the object of a resolving handle, and nothing for any other handle |
| DenseRuntime.Storage.ResolveSlowById | include/WorldEcsRuntime.h:390-411 | the object of a live UUID exactly when the UUID is indexed |
| DenseRuntime.Storage.HandleById | include/WorldEcsRuntime.h:436-457 | NotFound exactly for an unknown UUID; otherwise a handle with that UUID that resolves to the UUID's slot |
| DenseRuntime.Storage.CreateWithId | include/WorldEcsRuntime.h:296-334 | nil UUID gives InvalidArgument and a live UUID gives AlreadyExists, both leaving storage unchanged; a throwing constructor rolls the slot back and gives InternalError; otherwise the object is appended densely, the UUID indexed, and the returned handle resolves to it; no existing slot's generation changes |
| DenseRuntime.Storage.CreateInFreshSlot | include/WorldEcsRuntime.h:307-333 | past the argument checks: claim a slot, then commit the object or roll back |
| DenseRuntime.Storage.AcquireAndRollBack | include/WorldEcsRuntime.h:315-319 | the construction-failure path returns the claimed slot to the free list, keeping objects and index unchanged |
| DenseRuntime.Storage.AcquireSlot | include/WorldEcsRuntime.h:710-734 | pops the last free slot or grows by one fresh slot, claims it for the UUID while still dead, and indexes the UUID |
| DenseRuntime.Storage.RollbackCreate | include/WorldEcsRuntime.h:736-749 | an out-of-range slot is ignored; otherwise the slot is blanked, its UUID unindexed and the slot pushed on the free list |
| DenseRuntime.Storage.Destroy | include/WorldEcsRuntime.h:336-346 | true exactly when the handle resolves; then the slot is destroyed and the handle no longer resolves, its generation having moved on |
| DenseRuntime.Storage.DestroySlow | include/WorldEcsRuntime.h:348-364 | true exactly for an indexed UUID, whose slot is then destroyed |
| DenseRuntime.Storage.DestroyBySlot | include/WorldEcsRuntime.h:751-798 | an out-of-range or dead slot is a no-op; otherwise the dense entry is swap-removed, the moved slot re-pointed, and the slot retired onto the free list |
| DenseRuntime.Storage.Clear | include/WorldEcsRuntime.h:539-571 | all objects and the UUID index are dropped, every slot is retired (so every handle issued so far goes stale) and all slots return to the free list in index order |
| DenseRuntime.DenseBound | include/WorldEcsRuntime.h:760-761 | the live count never exceeds the slot count |
| DenseRuntime.GrowBlankKeepsInv | include/WorldEcsRuntime.h:719-749 | a failed construction on a grown table leaves one more blank slot, on the free list, and keeps the invariant |
| DenseRuntime.CreateKeepsInv | include/WorldEcsRuntime.h:307-330 | claiming the next slot for a new UUID and marking it live at the end of the dense arrays keeps the invariant |
| WorldHierarchy.Canon | include/WorldEcsRuntime.h:679-687 | the handle the node storage issues for a slot names that slot, its generation and its UUID |
| WorldHierarchy.EntryFor | include/WorldEcsRuntime.h:1225-1242 | a hierarchy entry is found exactly for a non-null handle with a valid, in-range index whose entry is alive at the handle's generation (UUID and token are not compared) |
| WorldHierarchy.SubtreeRankBound | include/WorldEcsRuntime.h:941-954 | parent links are acyclic: a descendant's rank is at least its ancestor's |
| WorldHierarchy.RemoveAll | include/WorldEcsRuntime.h:1208-1215 | RemoveChildLink removes every occurrence of the child and keeps every other element, in order |
| WorldHierarchy.Grow | include/WorldEcsRuntime.h:1217-1223 | EnsureHierarchySlot grows the table with blank entries exactly up to the slot, keeping existing entries |
| WorldHierarchy.CreateKeepsForest | include/WorldEcsRuntime.h:893-899 | creating a node in a dead slot keeps the forest invariant (parent and child links agree, parent links are acyclic, the roots are exactly the live parentless nodes, each once), the new handle becoming a root |
| WorldHierarchy.AttachedHier | include/WorldEcsRuntime.h:958-966 | after attach the child's parent is the parent's handle and the parent lists the child last; no other parent or child list changes |
| WorldHierarchy.AttachKeepsForest | include/WorldEcsRuntime.h:913-969 | attaching a parentless node under a node outside its subtree keeps the forest invariant, with the child dropped from the roots |
| WorldHierarchy.LinkedEffect | include/WorldEcsRuntime.h:958-966 | the attach edit sets the child's parent, appends the child to the parent's children, removes it from the roots, and changes no other entry or root |
| WorldHierarchy.DetachedHier | include/WorldEcsRuntime.h:984-996 | after detach the child has no parent and no other entry's parent changes |
| WorldHierarchy.AddIfMissing | include/WorldEcsRuntime.h:1263-1269 | the node is in the roots afterwards, nothing else is added, and a duplicate-free root list stays duplicate-free |
| WorldHierarchy.DetachKeepsForest | include/WorldEcsRuntime.h:971-1000 | detaching any live node keeps the forest invariant, the node becoming a root |
| WorldHierarchy.DetachView | include/WorldEcsRuntime.h:984-993 | detach changes no liveness or generation, and only the parent's child list loses the child |
| WorldHierarchy.LeafRemovedHier | include/WorldEcsRuntime.h:1470-1534 | the destroy step blanks the node's entry and changes no other entry's liveness, generation or parent |
| WorldHierarchy.DestroyLeafKeepsForest | include/WorldEcsRuntime.h:1470-1534 | destroying a live childless node keeps the forest invariant, with the node dropped from the roots |
| WorldHierarchy.DestroyLeafKeepsRoots | include/WorldEcsRuntime.h:1271-1278 | after destroying a leaf the roots are exactly the live parentless nodes, with the destroyed node's handle removed |
| WorldHierarchy.CreateKeepsForestOk | include/WorldEcsRuntime.h:893-899 | creation appends the new handle to the roots and the forest invariant holds again |
| WorldHierarchy.CreatedEffect | include/WorldEcsRuntime.h:893-899 | the created entry is live, parentless and childless at the handle's generation; older entries are untouched and the roots gain the handle |
| WorldHierarchy.UnlinkKeepsForest | include/WorldEcsRuntime.h:971-1000 | the detach edit on the runtime's forest keeps the forest invariant |
| WorldHierarchy.UnlinkedEffect | include/WorldEcsRuntime.h:984-996 | after detach the child has no parent, its former parent no longer lists it, it is a root, the roots stay duplicate-free, and no other entry or root changes |
| WorldHierarchy.LeafRemovedKeepsForest | include/WorldEcsRuntime.h:1470-1534 | the leaf destroy step on the runtime's forest keeps the forest invariant |
| WorldHierarchy.RootIffParentless | include/WorldEcsRuntime.h:1064-1067 | a live node is listed in Roots() exactly when it has no parent |
| WorldNodes.NodeRuntime.constructor | include/WorldEcsRuntime.h:1536-1540 | a new node runtime has no nodes, no hierarchy entries and no roots |
| WorldNodes.NodeRuntime.ResolvesIffLive | include/WorldEcsRuntime.h:1225-1242 | the node storage resolves exactly the current handles of live nodes, and each such handle has its hierarchy entry |
| WorldNodes.NodeRuntime.CreateNodeWithId | include/WorldEcsRuntime.h:870-901 | a nil type gives InvalidArgument; a nil or live UUID gives the node storage's InvalidArgument or AlreadyExists; errors change nothing; otherwise the new node resolves to its record and is a live parentless entry appended to the roots |
| WorldNodes.NodeRuntime.WalkReaches | include/WorldEcsRuntime.h:941-954 | the ancestor walk from the parent meets the child exactly when the parent lies in the child's subtree |
| WorldNodes.NodeRuntime.AttachChild | include/WorldEcsRuntime.h:913-969 | null handles or parent == child give InvalidArgument; a node that does not resolve gives NotFound; a child that already has a parent, or is an ancestor of the parent (a cycle), gives InvalidArgument; failures change nothing; success is exactly when all checks pass and performs the attach edit |
| WorldNodes.NodeRuntime.Link | include/WorldEcsRuntime.h:958-966 | the attach edit once every check has passed, keeping the forest invariant |
| WorldNodes.NodeRuntime.DetachChild | include/WorldEcsRuntime.h:971-1000 | a null handle gives InvalidArgument and an unresolved child NotFound, changing nothing; otherwise the detach edit, after which the child is a root |
| WorldNodes.NodeRuntime.DestroyNode | include/WorldEcsRuntime.h:903-911 | a null handle gives InvalidArgument and an unresolved one NotFound, changing nothing; success is exactly when the node resolves, and then the node and its whole subtree are removed (SubtreeRemoved) |
| WorldNodes.NodeRuntime.DestroyLoopStep | include/WorldEcsRuntime.h:1480-1531 | one loop iteration keeps the traversal invariant and decreases the (pending nodes, stack height) measure |
| WorldNodes.NodeRuntime.VisitTop | include/WorldEcsRuntime.h:1485-1506 | an unexpanded frame is skipped when its handle no longer resolves, else expanded, keeping the traversal invariant |
| WorldNodes.NodeRuntime.LeaveTop | include/WorldEcsRuntime.h:1508-1530 | an expanded frame is popped; its node, if it still has an entry, is destroyed, keeping the traversal invariant |
| WorldNodes.NodeRuntime.ResolvesLive | include/WorldEcsRuntime.h:1487 | the loop's resolve test holds exactly for live handles |
| WorldNodes.NodeRuntime.HasEntry | include/WorldEcsRuntime.h:1508-1512 | the loop's entry test holds exactly when the entry is alive |
| WorldNodes.NodeRuntime.ExpandTop | include/WorldEcsRuntime.h:1498-1506 | the frame goes back as expanded with a pending frame for each resolving child above it; the node leaves the pending set |
| WorldNodes.NodeRuntime.DestroyLeaf | include/WorldEcsRuntime.h:1514-1530 | the node leaves its parent's children and the roots, its entry is blanked and its slot destroyed in the node storage |
| WorldNodes.NodeRuntime.PushResolving | include/WorldEcsRuntime.h:1499-1505 | a pending frame for each child handle that resolves, in list order |
| WorldNodes.NodeRuntime.Parent | include/WorldEcsRuntime.h:1017-1027 | a non-null result is the stored parent of a node with an entry, and the parent has an entry too |
| WorldNodes.NodeRuntime.ParentOfLive | include/WorldEcsRuntime.h:1017-1027 | for a live node Parent is the stored parent, and it is null exactly for the nodes listed in Roots() |
| WorldNodes.NodeRuntime.Children | include/WorldEcsRuntime.h:1029-1062 | an unknown node has no children; otherwise the child list in order, and the children of a live node are all live |
| WorldNodes.NodeRuntime.ChildOfLive | include/WorldEcsRuntime.h:1029-1062 | each child of a live node is live, has that node as Parent and is not a root |
| WorldNodes.NodeRuntime.Clear | include/WorldEcsRuntime.h:1187-1192 | no nodes, no hierarchy entries and no roots remain; every slot is retired, so every node handle issued so far goes stale |
| WorldNodes.KeepWithEntry | include/WorldEcsRuntime.h:1055-1061 | the handles that have a hierarchy entry, in order; all of them when all have one |
| WorldDestroy.Pending | include/WorldEcsRuntime.h:1499-1505 | one unexpanded frame per child handle, in order |
| WorldDestroy.SubtreeTopAlive | include/WorldEcsRuntime.h:1470-1534 | only a live node has a subtree |
| WorldDestroy.BelowSomeChild | include/WorldEcsRuntime.h:1498-1505 | a node strictly below `u` lies in the subtree of one of `u`'s children, so expanding `u`'s children reaches it |
| WorldDestroy.LeafSubtree | include/WorldEcsRuntime.h:1508-1530 | the subtree of a childless node is the node itself |
| WorldDestroy.LeafRemovedView | include/WorldEcsRuntime.h:1514-1526 | the destroy step changes only the node's own entry and, when its parent resolves, the parent's child list, which loses the node |
| WorldDestroy.LeafRemovedKeepsSubtree | include/WorldEcsRuntime.h:1514-1526 | removing a childless node leaves every other node's ancestry unchanged |
| WorldDestroy.DfsStart | include/WorldEcsRuntime.h:1477-1478 | the traversal invariant holds for the stack holding only the unexpanded root frame |
| WorldDestroy.DfsDone | include/WorldEcsRuntime.h:1480-1533 | when the stack is empty the forest is exactly the old one with the root's whole subtree removed: its entries blank, the root unlinked from its parent and dropped from the roots |
| WorldDestroy.DfsSkip | include/WorldEcsRuntime.h:1487-1512 | popping a frame whose node is gone keeps the invariant |
| WorldDestroy.Expanded | include/WorldEcsRuntime.h:1498-1505 | the stack after expansion: the lower frames, the top frame marked expanded, then one unexpanded frame per child |
| WorldDestroy.KidsDistinct | include/WorldEcsRuntime.h:958-962 | a live node's child list has no duplicates |
| WorldDestroy.DfsExpand | include/WorldEcsRuntime.h:1498-1506 | expanding the top frame keeps the invariant, and its node leaves the pending set |
| WorldDestroy.DestroyLeafFacts | include/WorldEcsRuntime.h:1508-1530 | a live expanded top frame names a live leaf of the old subtree, since all its children were destroyed above it |
| WorldDestroy.DestroyKeepsLive | include/WorldEcsRuntime.h:1529 | the destroy step keeps every other live handle live |
| WorldDestroy.RootGoneOutside | include/WorldEcsRuntime.h:1514-1526 | once the root itself is destroyed, every entry outside the old subtree is what DetachChild(root) would leave |
| WorldDestroy.KidAfterDestroy | include/WorldEcsRuntime.h:1514-1526 | after the destroy step a surviving node's children were its children before and do not include the destroyed node |
| WorldDestroy.DfsDestroy | include/WorldEcsRuntime.h:1508-1530 | destroying the top frame's node is a leaf removal and keeps the invariant on the popped stack |
| WorldDestroy.DfsDestroyAny | include/WorldEcsRuntime.h:1508-1530 | the same for whatever slot table the node storage's Destroy leaves |
| WorldComponents.FindComponentIndex | include/WorldEcsRuntime.h:2094-2105 | finds the first link of the type, and returns none exactly when no link has it |
| WorldComponents.RemoveAtEffect | include/WorldEcsRuntime.h:2107-2119 | removing the link at a position keeps the types distinct, drops that link's type and keeps every other link |
| WorldComponents.RemoveAtPastEnd | include/WorldEcsRuntime.h:2109-2112 | a position past the end changes nothing |
| WorldComponents.AppendFreshType | include/WorldEcsRuntime.h:1795-1815 | appending a link of a type the node lacks keeps one link per type |
| WorldComponents.Attachments.constructor | include/WorldEcsRuntime.h:2413 | the attachment table starts empty |
| WorldComponents.Attachments.FindAttachment | include/WorldEcsRuntime.h:2069-2086 | an attachment is found exactly when the owner resolves and its slot holds a live attachment of the owner's generation |
| WorldComponents.Attachments.EnsureAttachment | include/WorldEcsRuntime.h:2047-2067 | none exactly for an unusable owner; otherwise the table covers the owner's slot, a current attachment is kept and a dead or stale one is reset empty, and every other slot is unchanged |
| WorldComponents.Attachments.AddComponentWithId | include/WorldEcsRuntime.h:1780-1816 | InvalidArgument for a nil type, NotFound for an unusable owner or a type without storage, AlreadyExists when the type is attached; on success the new link is appended and no other owner's attachment changes |
| WorldComponents.Attachments.RemoveComponent | include/WorldEcsRuntime.h:1818-1856 | InvalidArgument for a nil type, NotFound when no link has the type; otherwise the link is removed whatever the storage reports, the other links stay, the result is NotFound only when the storage did not destroy it, and the removed component's UUID is unregistered from the object registry (its entry removed and its runtime slot cleared), the registry being untouched on every error path |
| WorldComponents.Attachments.DetachLink | include/WorldEcsRuntime.h:1827-1850 | nothing is taken exactly when the owner has no link of the type (then nothing changes); otherwise the owner's link of that type is returned and removed, its other links stay, and other slots are untouched |
| WorldComponents.Attachments.HasComponent | include/WorldEcsRuntime.h:1858-1862 | true exactly when the owner's attachment lists the type |
| WorldComponents.Attachments.ComponentHandle | include/WorldEcsRuntime.h:1864-1881 | the handle linked under the type exactly when one is attached, NotFound otherwise |
| WorldComponents.Attachments.ClearAttachment | include/WorldEcsRuntime.h:2121-2133 | the owner's slot becomes blank when it exists; nothing else changes |
| WorldComponents.ClearedHasNoLinks | include/WorldEcsRuntime.h:2121-2133 | after a clear no handle of that slot finds an attachment |
| WorldTicks.LowerBound | include/WorldEcsRuntime.h:2386-2394 | the first position whose entry does not order before the new one: all earlier entries order before it, none later does |
| WorldTicks.InsertKeepsSorted | include/WorldEcsRuntime.h:2386-2395 | inserting at that position keeps the schedule sorted by (priority, sequence) and adds exactly the one entry |
| WorldTicks.Schedule.constructor | include/WorldEcsRuntime.h:2414-2415 | the schedule starts empty with sequence 0 |
| WorldTicks.Schedule.RegisterTickEntry | include/WorldEcsRuntime.h:2345-2396 | a type with no tick phase changes nothing; otherwise the entry takes the next sequence number and is inserted so the schedule stays sorted, as the old entries plus that one |
| WorldTicks.RegistrationOrderWithinPriority | include/WorldEcsRuntime.h:1962-2001 | in a sorted schedule, entries of equal priority tick in registration order |
| WorldTicks.LowerPriorityFirst | include/WorldEcsRuntime.h:1962-2001 | every lower-priority entry ticks before any higher-priority one |
| NodeGraphs.Resized | src/NodeGraph.cpp:257 | resizing the mask truncates it or pads it with zero words to exactly the word count |
| NodeGraphs.WithBitEffect | src/NodeGraph.cpp:261-266 | setting bit index%64 of word index/64 sets exactly that bit, growing the mask only up to that word |
| NodeGraphs.WithoutBitEffect | src/NodeGraph.cpp:284-289 | clearing the bit clears exactly that bit and keeps the mask's length |
| NodeGraphs.ContainsType | src/NodeGraph.cpp:268-274 | true exactly when the node already lists the type |
| NodeGraphs.EraseType | src/NodeGraph.cpp:290-296 | the node's type list with the first listing of the type erased |
| NodeGraphs.FirstDefaultConstructor | include/NodeGraph.h:193-203 | the first constructor without parameters, none exactly when every constructor takes parameters |
| NodeGraphs.UnlinkedAllNext | src/NodeGraph.cpp:95-101 | one more queued handle changes only its parent's child list, by a first-match erase |
| NodeGraphs.RootsAfterNext | src/NodeGraph.cpp:102-111 | one more queued parentless handle erases its first root entry, any other leaves the roots alone |
| NodeGraphs.RootsAfterShrinks | src/NodeGraph.cpp:102-111 | the end-of-frame root erases only drop entries: no root is added |
| NodeGraphs.StepOwners | src/NodeGraph.cpp:87-94 | one more queued handle leaves the storages of exactly the types it lists |
| NodeGraphs.NodeGraph.constructor | include/NodeGraph.h:75-80 | a new graph has no nodes, roots, pending destroys or storages, cursor 0 and budget 0 |
| NodeGraphs.NodeGraph.CreateNode | include/NodeGraph.h:111-170 | InvalidArgument for a nil UUID, AlreadyExists for an indexed one, both changing nothing; otherwise a default node with that handle, name, graph, world and type is registered and appended to the roots |
| NodeGraphs.NodeGraph.NewNode | include/BaseNode.h:421-426 | the new node has the given handle, name and type, no parent, no children and is active |
| NodeGraphs.NodeGraph.CreateNodeOfType | include/NodeGraph.h:181-243 | NotFound for an unregistered type, InvalidArgument for a non-node type, NotFound without a zero-parameter constructor, the constructor's error, then the CreateNode outcomes; the roots gain the node only on success |
| NodeGraphs.NodeGraph.DestroyNode | include/NodeGraph.h:309-318 | NotFound when the handle does not resolve; otherwise the handle is queued and its pool entry marked pending; nodes and roots are untouched |
| NodeGraphs.NodeGraph.AttachChild | include/NodeGraph.h:329-353 | NotFound for a missing node, InvalidArgument for a parented child, both changing nothing; otherwise the child is appended to the parent's children, takes the parent and its world and loses its first root entry |
| NodeGraphs.NodeGraph.DetachChild | include/NodeGraph.h:361-378 | NotFound for a missing child; otherwise a parented child leaves its parent's children and loses its parent, and the child is appended to the roots in every case |
| NodeGraphs.NodeGraph.StorageFor | include/NodeGraph.h:626-638 | a type's storage is created empty the first time only and kept afterwards |
| NodeGraphs.NodeGraph.HasComponent | include/NodeGraph.h:531-540 | false without a storage, else whether the storage holds the owner |
| NodeGraphs.NodeGraph.IsNodeActive | src/NodeGraph.cpp:228-249 | false for a pending, missing or inactive node; true without a relevance component; otherwise the relevance component's Active flag |
| NodeGraphs.NodeGraph.EvaluateRelevance | src/NodeGraph.cpp:198-226 | with a non-zero budget at most that many nodes are evaluated; only evaluated owners change, to their policy's verdict; with no budget every owner with a relevance component is evaluated |
| NodeGraphs.NodeGraph.RegisterComponentOnNode | src/NodeGraph.cpp:251-276 | the mask is synced to the registry version, the type's bit is set and every other bit kept, and the type is listed once |
| NodeGraphs.NodeGraph.UnregisterComponentOnNode | src/NodeGraph.cpp:278-297 | the type's bit is cleared when its word exists, every other bit and the length kept, and the first listing of the type is erased |
| NodeGraphs.NodeGraph.EndFrame | src/NodeGraph.cpp:78-124 | every queued node leaves its storages and is unlinked from its parent's children, or from the roots when parentless; then the queued UUIDs are unregistered and the pending lists emptied |
| NodeGraphs.NodeGraph.FlushStep | src/NodeGraph.cpp:80-112 | one queued handle: the storages and the hierarchy advance by exactly that handle's effect |
| NodeGraphs.NodeGraph.Clear | src/NodeGraph.cpp:126-145 | storages, nodes, roots and pending lists are emptied and the cursor reset to 0; the budget is kept |
| BaseNodes.CountIdPositive | include/BaseNode.h:191-201 | a UUID occurs in the child list exactly when its count there is positive |
| BaseNodes.WithoutFirstCounts | include/BaseNode.h:191-201 | the first-match erase removes exactly one occurrence when there is one, leaves later duplicates and every other UUID's count, and changes nothing otherwise |
| BaseNodes.WithoutFirstAt | include/BaseNode.h:193-200 | the erase keeps everything before the first match and everything after it |
| BaseNodes.WithoutFirstAbsent | include/BaseNode.h:191-201 | without a match the list is unchanged |
| BaseNodes.FindFirst | include/BaseNode.h:193-200 | the position of the first match, none exactly when no child carries the UUID |
| BaseNodes.EraseFirst | include/BaseNode.h:191-201 | the list after the first-match erase |
| BaseNodes.AppendCount | include/BaseNode.h:179-182 | appending a handle raises its UUID's count by one, whether or not it was present |
| BaseNodes.BaseNode.constructor | include/BaseNode.h:421-430 | a new node is named "Node", active, not replicated, with null self and parent handles and no children or components |
| BaseNodes.BaseNode.SetId | include/BaseNode.h:116-119 | the self handle becomes the bare UUID, without a runtime key; no other field changes |
| BaseNodes.BaseNode.SetHandle | include/BaseNode.h:95-98 | the self handle is replaced as given; no other field changes |
| BaseNodes.BaseNode.SetParent | include/BaseNode.h:158-161 | only the parent handle changes |
| BaseNodes.BaseNode.AddChild | include/BaseNode.h:179-182 | the child is appended without a duplicate check, raising its count by one; only the child list changes |
| BaseNodes.BaseNode.RemoveChild | include/BaseNode.h:191-201 | only the first matching child is erased; only the child list changes |
| Rpc.FirstOwn | src/BaseNode.cpp:38-56 | the first own method that matches name, RPC flag, arity and exact parameter types, none exactly when no own method does |
| Rpc.FindRpcMethod | src/BaseNode.cpp:27-75 | a result is a registered method of a registered type that accepts the call |
| Rpc.OwnMethodsFirst | src/BaseNode.cpp:38-56 | the type's first accepting own method wins, reported with the type itself as its declarer |
| Rpc.BasesInOrder | src/BaseNode.cpp:58-74 | with no own match, the result is that of the first base, in declaration order, whose depth-first search succeeds |
| Rpc.UnregisteredHasNoRpc | src/BaseNode.cpp:33-37 | an unregistered type has no RPC method |
| Rpc.NoWorldRoles | src/BaseNode.cpp:114-145 | without a networking world a node is a server and neither client nor listen-server |
| Rpc.ServerMethodRouting | src/BaseNode.cpp:164-202 | a server runs a Server method; a client forwards it to the primary connection only with session, RPC service, bridge and connection |
| Rpc.ClientMethodRouting | src/BaseNode.cpp:204-242 | a client runs a Client method; a server with a session forwards it to the primary connection; with a session but no connection only a listen-server runs it, else it is refused; a server without a session runs it |
| Rpc.MulticastMethodRouting | src/BaseNode.cpp:244-273 | a server with a session forwards a Multicast method on connection 0, otherwise runs it; a client runs it |
| Rpc.RouteFor | src/BaseNode.cpp:164-273 | the routing table checked Server, Client, Multicast in that order; ServerMethodRouting, ClientMethodRouting and MulticastMethodRouting state each flag's routes |
| Rpc.CallRpc | src/BaseNode.cpp:155-276 | the outcome of a call; CallRpcOutcome states it for each route |
| Rpc.CallRpcOutcome | src/BaseNode.cpp:155-276 | false when no method accepts the call or the route refuses it; otherwise the local invoke's result or whether the bridge call succeeded |
| BaseComponents.BaseComponent.constructor | include/IComponent.h:247-248 | the component has its owner handle and an empty owner cache |
| BaseComponents.BaseComponent.SetOwner | include/IComponent.h:78-82 | the owner handle is replaced and the cache refilled: empty for a null handle, else the resolved node |
| BaseComponents.BaseComponent.OwnerNode | src/BaseComponent.cpp:86-93 | the owner handle is resolved only when the cache is empty and the handle set, and the result is cached; otherwise the cache is returned unchanged |
| BaseComponents.BaseComponent.World | src/BaseComponent.cpp:95-103 | the owner node's world, or none when no owner node resolves |
| BaseComponents.ComponentNetworking | src/BaseComponent.cpp:105-136 | a component without a world sees no networking, otherwise the world's |
| BaseComponents.ComponentRolesWithoutWorld | src/BaseComponent.cpp:105-136 | without a world a component is a server and neither client nor listen-server |
| Wire.BigEndianRoundTrip | src/NetRpc.cpp:132-160 | reading back the big-endian bytes of a number gives the number |
| Wire.FromBigEndianRoundTrip | src/NetRpc.cpp:132-160 | writing back the number that bytes spell gives the bytes |
| Wire.UuidBytes | src/NetRpc.cpp:110-119 | a UUID is written as its 16 bytes |
| Wire.ReadBytes | src/NetRpc.cpp:121-130 | a read of `n` bytes succeeds exactly when `n` bytes remain, and advances by `n` |
| Wire.ReadU32 | src/NetRpc.cpp:143-149 | a u32 read succeeds exactly when four bytes remain |
| Wire.ReadUuid | src/NetRpc.cpp:121-130 | a UUID read succeeds exactly when 16 bytes remain |
| Wire.ReadU32Written | src/NetRpc.cpp:139-149 | a written u32 reads back from where it was written |
| Wire.ReadUuidWritten | src/NetRpc.cpp:110-130 | a written UUID reads back from where it was written |
| NetRpc.StatusByteInjective | include/NetRpc.h:45-53 | the six reflection statuses have six distinct wire values |
| NetRpc.EncodePayload | src/NetRpc.cpp:132-141 | a payload longer than u32 max is refused, any other is encoded |
| NetRpc.PayloadRoundTrip | src/NetRpc.cpp:132-160 | decoding an encoded payload gives back exactly its bytes and consumes exactly the encoding, wherever it sits in the stream |
| NetRpc.DecodePayloadEdges | src/NetRpc.cpp:143-160 | a declared length beyond the remaining bytes fails; length 0 gives an empty payload; a decoded payload has the declared length |
| NetRpc.EncodeRequest | src/NetRpc.cpp:302-309 | succeeds exactly when the payload fits, with u8 kind, two UUIDs, u32 method id and the length-prefixed payload |
| NetRpc.RequestHeadReads | src/NetRpc.cpp:311-321 | each fixed request field reads back from where it was written |
| NetRpc.RequestRoundTrip | src/NetRpc.cpp:302-321 | decoding an encoded request gives the request back and consumes exactly its bytes |
| NetRpc.ShortRequestFails | src/NetRpc.cpp:311-321 | fewer than 41 bytes never decode as a request |
| NetRpc.DecodeRequest | src/NetRpc.cpp:311-321 | reads the request fields in order and fails on any short read; RequestRoundTrip states that it inverts EncodeRequest and ShortRequestFails that short input fails |
| NetRpc.EncodeResponse | src/NetRpc.cpp:323-327 | succeeds exactly when the payload fits: the status byte, then the length-prefixed payload |
| NetRpc.ResponseRoundTrip | src/NetRpc.cpp:323-338 | decoding an encoded response gives the response back and consumes exactly its bytes |
| NetRpc.DecodeResponse | src/NetRpc.cpp:329-338 | the status byte as is, then the payload; ResponseRoundTrip states that it inverts EncodeResponse and ShortResponseFails that short input fails |
| NetRpc.ShortResponseFails | src/NetRpc.cpp:329-338 | fewer than the 5 bytes of status and length prefix never decode as a response |
| NetRpc.DirectionCases | src/NetRpc.cpp:191-202 | ToClient exactly for Client methods, ToMulticast for Multicast methods without Client, ToServer otherwise |
| NetRpc.ReliableCases | src/NetRpc.cpp:204-215 | Unreliable wins; the default matters only when neither reliability flag is set |
| NetRpc.ArgsFromDone | src/NetRpc.cpp:231-243 | the argument loop succeeds exactly when every argument has its parameter's type and encodes |
| NetRpc.ArgsFromMismatch | src/NetRpc.cpp:231-243 | the first failing argument's type mismatch is what the loop reports |
| NetRpc.EncodeArgs | src/NetRpc.cpp:217-244 | the count check, then the per-argument loop's outcome |
| NetRpc.PlanCallSends | src/NetRpc.cpp:650-747 | a call is sent exactly when the service is bound, the method is RPC-flagged and the arguments encode, carrying the requested target and method id; an encoding failure is reported as its own error |
| NetRpc.CallCompletionCases | src/NetRpc.cpp:698-721 | a failed transport or a non-Success status gives InternalError; otherwise the decoded return value is delivered |
| NetRpc.RegisteredExtends | src/NetRpc.cpp:379-402 | registering a type keeps every existing method entry and adds an entry under the id of each of the type's own RPC methods |
| NetRpc.StatusOrder | src/NetRpc.cpp:580-648 | Success exactly when every stage passes; a later stage's failure is reported only after every earlier stage passed |
| NetRpc.NetRpcBridge.constructor | src/NetRpc.cpp:340-343 | a new bridge has an empty method table |
| NetRpc.NetRpcBridge.RegisterType | src/NetRpc.cpp:379-402 | the table after registering the bases first, then the own RPC methods, each emplaced under its method id |
| NetRpc.NetRpcBridge.HandleRequest | src/NetRpc.cpp:580-648 | on a miss with a non-nil target type that type is registered once; the status follows the stage order and the payload is the encoded return value only past a successful invoke |
| NetReplication.EncodeHeader | src/NetReplication.cpp:184-190 | a header is 49 bytes: the kind byte, then the object id, object type and owner id |
| NetReplication.DecodeHeader | src/NetReplication.cpp:192-203 | decoding succeeds exactly when 49 bytes remain, and consumes exactly 49 |
| NetReplication.HeaderRoundTrip | src/NetReplication.cpp:184-203 | decoding an encoded header gives the header back, wherever it sits in the stream |
| NetReplication.EntityIdSamples | src/NetReplication.cpp:205-210 | the 64-bit mixing of the UUID halves, wrapping modulo 2^64, on sample ids |
| NetReplication.BuildSnapshot | src/NetReplication.cpp:616-684 | no snapshot for an unmapped entity or when a replicated object's fields fail to serialise; otherwise one is built |
| NetReplication.SnapshotDecodes | src/NetReplication.cpp:616-684 | a snapshot decodes to the entity's header, followed by its field bytes, none for an object that is not Replicated |
| NetReplication.BuildDelta | src/NetReplication.cpp:686-705 | no delta without a snapshot or when it equals the baseline; otherwise the snapshot is both delta and new baseline |
| NetReplication.DeltaThenSame | src/NetReplication.cpp:686-705 | after a delta is built, the same snapshot against the new baseline gives none |
| NetReplication.ApplyResolvableLinks | src/NetReplication.cpp:924-952 | the queued links whose child and parent both resolve are applied; the rest stay queued |
| NetReplication.LinksPartition | src/NetReplication.cpp:924-952 | every queued link is either applied or kept, never both, and keeps its parent id |
| NetReplication.StillPendingSettled | src/NetReplication.cpp:924-952 | a second pass over the kept links with the same nodes applies nothing |
| NetReplication.KeptExactly | src/NetReplication.cpp:954-1002 | a queued component stays exactly when it does not settle; the queue never grows and a second pass keeps it |
| NetReplication.NodeTypesAfter | src/NetReplication.cpp:823-840 | a created node gets the header's type, an existing one only a non-nil type; no other node changes |
| NetReplication.NodeLinkAfter | src/NetReplication.cpp:841-864 | after a node payload the node has its owner as parent, no parent for a nil owner, or its owner queued; other links are kept |
| NetReplication.LineageIds | src/NetReplication.cpp:558-569 | a node's lineage includes its own entity id |
| NetReplication.GatheredLineageCovers | src/NetReplication.cpp:571-590 | each gathered node contributes its whole lineage, and only gathered nodes contribute |
| NetReplication.ComponentEntitiesSound | src/NetReplication.cpp:592-613 | every component entity comes from a present, Replicated component, and each such component gives one |
| NetReplication.AddNodeWithParents | src/NetReplication.cpp:546-569 | the node and each ancestor reached through live parents are added, each entity id once |
| NetReplication.HasReplicatedComponent | src/NetReplication.cpp:573-583 | true exactly when some listed component is present and Replicated |
| NetReplication.GatherNodes | src/NetReplication.cpp:571-590 | the node pass lists the qualifying nodes in pool order and adds exactly their lineages |
| NetReplication.GatherComponents | src/NetReplication.cpp:592-613 | the component pass adds the replicated components of the qualifying nodes; emplace keeps existing references |
| NetReplication.ReplicaWorld.constructor | src/NetReplication.cpp:514-518 | the replica side starts with no nodes, parents or components |
| NetReplication.NetReplicationBridge.constructor | src/NetReplication.cpp:514-518 | a new bridge has no entity info, queued parents, queued components or entity references |
| NetReplication.NetReplicationBridge.ApplyPayload | src/NetReplication.cpp:796-922 | refused without a graph, for a header that does not decode and for an unknown kind; a node payload finds or creates the node, sets its type and parent or queues the parent; a component payload creates or finds the component, or queues it |
| NetReplication.NetReplicationBridge.ApplyNodeHeader | src/NetReplication.cpp:823-864 | the node is present exactly when it existed or was created; then its type key and parent link, or the queued link, change as NodeTypesAfter and NodeLinkAfter state |
| NetReplication.NetReplicationBridge.GatherEntities | src/NetReplication.cpp:532-614 | nothing without a graph; node entities first, distinct, exactly the lineages of the qualifying nodes in pool order; then the component entities; every entity has its reference |
| NetReplication.NetReplicationBridge.ResolvePendingAttachments | src/NetReplication.cpp:924-952 | every queued link whose child and parent resolve is applied and erased; the rest stay queued |
| NetReplication.NetReplicationBridge.ResolvePendingComponents | src/NetReplication.cpp:954-1002 | each queued component whose owner resolves is created; it leaves the queue when creation and the field apply succeed |
| Physics.MapPhysicsError | src/PhysicsSystem.cpp:44-63 | NotInitialized and NotSupported become NotReady, backend and internal errors become InternalError, the rest keep their meaning |
| Physics.Without | src/PhysicsSystem.cpp:276-300 | the token list without the removed token, and nothing else removed |
| Physics.WithoutDistinct | src/PhysicsSystem.cpp:276-300 | dropping a token keeps a body's token list free of repeats |
| Physics.InKeyOrderValues | src/PhysicsSystem.cpp:164-169 | the listener snapshot lists every registered listener, once per token, and nothing else |
| Physics.TokenDispatchesExactly | src/PhysicsSystem.cpp:184-195 | a body's dispatches are exactly the non-empty callbacks of its registered tokens |
| Physics.SleepDispatchesSound | src/PhysicsSystem.cpp:197-211 | every queued dispatch refers to a sleep or wake event and a non-empty callback of its BodyA, or of its BodyB when valid and different |
| Physics.SleepListenerReached | src/PhysicsSystem.cpp:197-211 | a registered sleep listener is dispatched for every sleep or wake event of its body |
| Physics.SleepDispatchesPrefix | src/PhysicsSystem.cpp:197-211 | the dispatches of earlier events come first and stay |
| Physics.EachListener | src/PhysicsSystem.cpp:216-219 | one event goes to every listener of the snapshot, in order |
| Physics.DispatchCalls | src/PhysicsSystem.cpp:222-225 | each queued dispatch calls its listener with its own event |
| Physics.PhysicsSystem.constructor | include/PhysicsSystem.h:230-240 | no scene, an empty queue and registries, both token counters at 1 |
| Physics.PhysicsSystem.Initialize | src/PhysicsSystem.cpp:65-92 | the state is reset first; a registration error other than AlreadyExists or a scene error fails with its mapped code and no scene; otherwise the scene exists |
| Physics.PhysicsSystem.Shutdown | src/PhysicsSystem.cpp:94-104 | the scene is dropped and the queue, registries and counters are reset |
| Physics.PhysicsSystem.DrainEvents | src/PhysicsSystem.cpp:230-245 | the oldest min(capacity, pending) events are copied out in order and removed from the queue, the rest of the buffer untouched |
| Physics.PhysicsSystem.AddEventListener | src/PhysicsSystem.cpp:247-253 | the listener is stored under a fresh token, the current counter, which then advances |
| Physics.PhysicsSystem.RemoveEventListener | src/PhysicsSystem.cpp:255-259 | true exactly when the token was registered; it is gone afterwards |
| Physics.PhysicsSystem.AddBodySleepListener | src/PhysicsSystem.cpp:261-274 | 0 with nothing changed for an invalid body or empty callback; otherwise a fresh token stored with the body and appended to the body's list |
| Physics.PhysicsSystem.RemoveBodySleepListener | src/PhysicsSystem.cpp:276-300 | false with nothing changed for an unknown token; otherwise the entry is erased, the token leaves its body's list, and an emptied list is erased |
| Physics.PhysicsSystem.Step | src/PhysicsSystem.cpp:112-228 | InvalidArgument for a non-positive delta, NotReady without a scene, the mapped simulate or fetch error, all with the queue unchanged; otherwise the events join the queue and every listener then every sleep dispatch is called, in order |
| Physics.PhysicsSystem.SnapshotListeners | src/PhysicsSystem.cpp:164-169 | the listeners in ascending token order |
| Physics.PhysicsSystem.QueueSleepDispatches | src/PhysicsSystem.cpp:197-211 | the dispatch list the event loop queues |
| Physics.PhysicsSystem.QueueBodyDispatches | src/PhysicsSystem.cpp:171-195 | each token of the body whose entry exists with a non-empty callback, in list order |
| Variants.Void | include/Variant.h:33-40 | the void type, no storage, owned and not const; extraction reports TypeMismatch |
| Variants.FromValue | include/Variant.h:50-59 | an owned variant of the type, both extractions hand out its cell |
| Variants.FromRef | include/Variant.h:69-77 | a mutable reference: both extractions hand out the address |
| Variants.FromConstRef | include/Variant.h:87-95 | a const reference: mutable extraction is InvalidArgument, const extraction hands out the address |
| Variants.AsRefIsGatedAsConstRef | include/Variant.h:170-206 | mutable extraction succeeds exactly when const extraction does and the variant is not a const reference, with the same pointer |
| Variants.MismatchFirst | include/Variant.h:170-206 | a type mismatch is reported first, whatever the flags |
| Variants.InvalidArgumentMeansConstRef | include/Variant.h:170-186 | InvalidArgument from mutable extraction means exactly a const reference of the right type |
| Variants.EmptyExtracts | include/Variant.h:170-206 | a default variant refuses every extraction with TypeMismatch |
| Variants.BorrowedMutable | include/Variant.h:274-277 | nullptr for a const view, else the payload address |
| Text.ToLower | src/UIPropertyPanel.cpp:111-119 | tolower in the C locale: only A-Z change, to a-z |
| Text.LowerCopy | src/UIPropertyPanel.cpp:111-119 | every character lower-cased, the length kept |
| Text.TrimmedShape | include/AssetRef.h:391-406 | the trimmed text is the slice between the leading and trailing whitespace, neither end of it is whitespace, and all-whitespace text trims to empty |
| Text.TrimmedIdempotent | include/AssetRef.h:391-406 | trimming twice is trimming once |
| Text.TrimCopy | src/UIPropertyPanel.cpp:94-109 | the two scanning loops compute the trimmed text |
| Text.SameIgnoringCaseLower | src/UIPropertyPanel.cpp:210-225 | comparing ignoring case is comparing the lower-cased copies |
| Text.EqualsIgnoreCase | src/UIPropertyPanel.cpp:210-225 | true exactly when the lengths agree and every position agrees after tolower |
| Text.FirstOccurrence | src/Editor/EditorLayout.cpp:347-356 | where the first occurrence of the pattern starts, none when it does not occur |
| Text.LastOccurrence | src/Editor/EditorLayout.cpp:226-234 | where the last occurrence of the pattern starts, none when it does not occur |
| Text.AfterLast | src/Editor/EditorLayout.cpp:226-234 | the text after the last separator, whose prefix, separator and rest rebuild the input; the whole text without a separator |
| Text.AfterLastHasNoSeparator | src/Editor/EditorLayout.cpp:226-234 | what follows the last separator holds no separator |
| Text.DecimalTextValue | src/Editor/EditorLayout.cpp:236-260 | the decimal text of a number parses back to the number |
| Text.StrLessTotal | include/AssetRef.h:369-375 | std::string's `<` is total and asymmetric |
| Text.InsertByCorrect | include/AssetRef.h:369-375 | inserting into a sorted list keeps it sorted and adds exactly the element |
| Text.SortByCorrect | include/AssetRef.h:369-375 | the sort yields an ascending permutation of its input |
| AssetRefs.ShortAssetId | include/AssetRef.h:408-415 | the first eight characters of the id, or the whole id when it is no longer |
| AssetRefs.LabelParts | include/AssetRef.h:128-140 | the label starts with the resolved name when there is one and is the trimmed id otherwise; it is empty exactly when both are |
| AssetRefs.NullRefLabel | include/AssetRef.h:114-140 | a null reference resolves no name and shows an empty label; a non-null one shows something unless its name is empty and its id only whitespace |
| AssetRefs.AssetRef.constructor | include/AssetRef.h:61-67 | the default name when the tag has one, and no id |
| AssetRefs.AssetRef.WithAsset | include/AssetRef.h:75-80 | the trimmed name and id replace the defaults |
| AssetRefs.AssetRef.SetAsset | include/AssetRef.h:102-106 | stores the trimmed name and id |
| AssetRefs.AssetRef.Clear | include/AssetRef.h:108-112 | both are emptied; the reference is then null exactly when the tag has no default name, and resolves to the default name |
| AssetRefs.EntryFor | include/AssetRef.h:359-366 | the entry's name falls back to the id text, and its label is the name and the first eight characters of the id in brackets |
| AssetRefs.EntryLessWeakOrder | include/AssetRef.h:369-375 | ordering by (name, id) is a strict weak order, as std::sort requires |
| AssetRefs.EnumerateCompatibleAssets | include/AssetRef.h:325-378 | one entry per compatible catalog asset, sorted ascending by (name, id), a permutation of the collected entries, each with its bracketed label |
| AssetRefs.CollectedLabels | include/AssetRef.h:329-367 | every collected entry comes from a listed catalog asset and carries the bracketed label |
| BrowserPath.NormalizeBrowserPath | src/Editor/EditorLayout.cpp:373-390 | the three loops (leading slashes erased, trailing slashes popped, each "//" collapsed) after backslashes become slashes compute the normalised path, which is clean: no leading, trailing or doubled separator and no backslash |
| BrowserPath.EraseLeadingSlashes | src/Editor/EditorLayout.cpp:377-380 | the first loop keeps the folder names and leaves no leading '/' |
| BrowserPath.PopTrailingSlashes | src/Editor/EditorLayout.cpp:381-384 | the second loop keeps the folder names and leaves no trailing '/' |
| BrowserPath.CollapseDoubleSlashes | src/Editor/EditorLayout.cpp:385-388 | the third loop keeps the folder names and leaves the path clean |
| BrowserPath.NormalizedClean | src/Editor/EditorLayout.cpp:373-390 | every normalised path is clean |
| BrowserPath.NormalizedIdempotent | src/Editor/EditorLayout.cpp:373-390 | normalising twice is normalising once |
| BrowserPath.CleanNormalized | src/Editor/EditorLayout.cpp:373-390 | a clean path is left unchanged by normalising |
| BrowserPath.SplitBrowserPath | src/Editor/EditorLayout.cpp:392-414 | the split loop yields the non-empty, separator-free folder names of the normalised path, and joining them with '/' gives that path back |
| BrowserPath.SplitStep | src/Editor/EditorLayout.cpp:400-411 | one round of the split loop: the part before the next '/' is kept exactly when it is not empty |
| BrowserPath.FindChar | src/Editor/EditorLayout.cpp:400 | string::find: the first index at or after the start holding the character, or none when no index does |
| BrowserPath.JoinPieces | src/Editor/EditorLayout.cpp:392-414 | splitting at every '/' and joining again gives the text back |
| BrowserPath.PiecesJoin | src/Editor/EditorLayout.cpp:392-414 | names without separators, joined and split again, are the same names |
| BrowserPath.SegmentsJoin | src/Editor/EditorLayout.cpp:392-414 | folder names joined by '/' split back into the same folder names |
| BrowserPath.CleanIsJoin | src/Editor/EditorLayout.cpp:392-414 | a clean path is the join of its own folder names |
| BrowserPath.JoinClean | src/Editor/EditorLayout.cpp:1273-1281 | folder names joined by single separators form a clean path, non-empty when there is a name |
| BrowserPath.PiecesSplit | src/Editor/EditorLayout.cpp:392-414 | a separator splits the pieces of a text in two |
| BrowserPath.ParentBrowserPath | src/Editor/EditorLayout.cpp:416-425 | the normalised path before its last '/', empty when it has none; the result is clean |
| BrowserPath.LeafBrowserName | src/Editor/EditorLayout.cpp:427-436 | the normalised path after its last '/', all of it when it has none; the result holds no '/' |
| BrowserPath.ParentLeafSplit | src/Editor/EditorLayout.cpp:416-436 | parent, '/', leaf is the path again when it has a separator; otherwise the parent is empty and the leaf is the path |
| BrowserPath.ParentLeafSegments | src/Editor/EditorLayout.cpp:416-436 | on a non-empty clean path the parent holds every folder name but the last, which is the leaf |
| BrowserPath.FolderContainsSegments | src/Editor/EditorLayout.cpp:438-450 | the containment test implies the folder's names are a prefix of the asset folder's names, and for clean paths the converse holds |
| BrowserPath.PrefixSegmentsContain | src/Editor/EditorLayout.cpp:438-450 | for clean paths with a name prefix, the asset folder is the folder itself or starts with the folder and a '/' |
| EditorLayout.ShortTypeLabel | src/Editor/EditorLayout.cpp:226-234 | the result holds no "::"; a name without "::" is returned whole, otherwise the result is what follows the name's last "::" |
| EditorLayout.TryParsePrefixedIndex | src/Editor/EditorLayout.cpp:236-260 | the loop computes the prefixed-index parse: nothing without the prefix or with an empty or non-digit tail, otherwise the decimal value wrapped to std::size_t |
| EditorLayout.PrefixedIndexRoundTrip | src/Editor/EditorLayout.cpp:236-260 | the prefix followed by the decimal text of an index below 2^64 parses back to that index |
| EditorLayout.PrefixedIndexNeedsPrefix | src/Editor/EditorLayout.cpp:238-241 | text without the prefix, or only the prefix, parses to nothing |
| EditorLayout.LabelMatchesItsLowerCopy | src/Editor/EditorLayout.cpp:347-356 | a caption passes the filter made of the lowered copy of any slice of it |
| EditorLayout.UpperCaseFilterMatchesNone | src/Editor/EditorLayout.cpp:347-356 | a filter with an upper-case letter passes no caption, since the caption is lowered and the filter is not |
| EditorLayout.LabelFilterIgnoresCase | src/Editor/EditorLayout.cpp:347-356 | the filter gives the same answer for a caption and its lowered copy |
| EditorLayout.ChildName | src/Editor/EditorLayout.cpp:4111-4123 | the child folder name under the current folder holds no '/' |
| EditorLayout.EntryLessWeakOrder | src/Editor/EditorLayout.cpp:4145-4160 | the card comparator (folders first, then lowered name, then folder path) is a strict weak ordering, as std::sort requires |
| EditorLayout.FoldersFirst | src/Editor/EditorLayout.cpp:4145-4160 | in a list sorted by the comparator no asset card comes before a folder card |
| EditorLayout.ChildPathSegments | src/Editor/EditorLayout.cpp:4125-4127 | a child folder path names exactly one more folder below the current one |
| EditorLayout.StepForSound | src/Editor/EditorLayout.cpp:4081-4142 | one round adds an asset card only for an asset of the current folder, under its display name; a folder card only for a child path not seen before, which then joins the seen set; with no filter an asset of the folder is always listed, and a nested asset's child path is always recorded |
| EditorLayout.CollectAssetCardsSound | src/Editor/EditorLayout.cpp:4081-4108 | every asset card of the rebuild names an asset of the current folder, under its leaf name or its whole name |
| EditorLayout.CollectFolderCards | src/Editor/EditorLayout.cpp:4110-4142 | every folder card of the rebuild names a child folder of the current folder, and no two share a path |
| EditorLayout.CollectListsEverything | src/Editor/EditorLayout.cpp:4081-4142 | with no filter every asset of the current folder has its card and every child folder seen has its card |
| EditorLayout.CollectSeesNestedFolders | src/Editor/EditorLayout.cpp:4110-4131 | every asset below the current folder, but not in it, puts its child folder's path among those seen |
| EditorLayout.CrumbFolder | src/Editor/EditorLayout.cpp:1265-1282 | the target folder is clean: the root for crumbs 0 and 1, otherwise the first index - 1 folder names of the current folder |
| EditorLayout.ContentBrowser.constructor | include/Editor/EditorLayout.h:178-180 | the fields start value-initialised: a browser over a catalog starts at the root folder with no filter and no cards |
| EditorLayout.ContentBrowser.SetFilterText | src/Editor/EditorLayout.cpp:998-1001 | the filter text's set hook stores the lowered copy, which holds no upper-case letter |
| EditorLayout.ContentBrowser.RebuildContentBrowserEntries | src/Editor/EditorLayout.cpp:4073-4162 | the current folder is normalised; the cards are the collected cards sorted by the comparator, a sorted permutation of them |
| EditorLayout.ContentBrowser.OnCrumbClicked | src/Editor/EditorLayout.cpp:1265-1282 | the current folder becomes the crumb's target folder |
| EditorLayout.JoinCrumbs | src/Editor/EditorLayout.cpp:1273-1281 | the loop joins the first segmentCount folder names with '/' |
| EditorLayout.BuildCards | src/Editor/EditorLayout.cpp:4081-4143 | the loop builds exactly the collected card list, in catalog order |
| EditorLayout.BuildCardsStep | src/Editor/EditorLayout.cpp:4081-4143 | one round of the loop extends the card list over one more asset |
| EditorLayout.RebuildStep | src/Editor/EditorLayout.cpp:4083-4142 | the loop body for one asset, with its folder and leaf computed by the path helpers, is one collection step |
| EditorLayout.PlaceAsset | src/Editor/EditorLayout.cpp:4087-4142 | the loop body once the asset's folder and leaf are known is one collection step |
| EditorLayout.ChildFolderName | src/Editor/EditorLayout.cpp:4110-4118 | the text after the current folder and its separator, up to the next separator, is the child folder name |
| PropertyPanel.LittleEndianRoundTrip | src/UIPropertyPanel.cpp:229-320 | a value that fits n bytes, stored in memory order and loaded back, is the value |
| PropertyPanel.WrittenBytes | src/UIPropertyPanel.cpp:229-320 | bytes loaded as a value and stored back are the same bytes |
| PropertyPanel.ReadUnsignedBits | src/UIPropertyPanel.cpp:229-270 | fails exactly for a null source or a width other than 1, 2, 4 or 8; otherwise the value is below 256^size and its bytes are the source's first size bytes |
| PropertyPanel.WriteUnsignedBits | src/UIPropertyPanel.cpp:271-320 | succeeds exactly for a non-null destination, a supported width and a value that fits it; then the first size bytes hold the value, the rest is unchanged and reading back gives the value; on failure nothing is written |
| PropertyPanel.ConvertUnsignedToBits | src/UIPropertyPanel.cpp:321-353 | succeeds exactly for a supported width and a value that fits it, and then returns the value itself |
| PropertyPanel.ConvertSignedToBits | src/UIPropertyPanel.cpp:354-389 | succeeds exactly for a supported width and a value in its signed range, and returns the value's two's-complement pattern, its residue modulo 256^size |
| PropertyPanel.SignExtend | src/UIPropertyPanel.cpp:390-407 | on a supported width the result is the one value of the signed range congruent to the input modulo 256^size; 0 on any other width |
| PropertyPanel.SignedRoundTrip | src/UIPropertyPanel.cpp:354-407 | sign extension undoes the signed conversion |
| PropertyPanel.ParseSigned | src/UIPropertyPanel.cpp:2083-2100 | succeeds exactly when the trimmed text is a non-empty signed decimal number with nothing after it; out-of-range magnitudes saturate to the 64-bit bounds as strtoll does |
| PropertyPanel.ParseUnsigned | src/UIPropertyPanel.cpp:2102-2119 | succeeds exactly when the trimmed text is a non-empty signed decimal number with nothing after it |
| PropertyPanel.UnsignedTextRoundTrip | src/UIPropertyPanel.cpp:2102-2119 | the decimal text of every 64-bit unsigned value parses back to it |
| PropertyPanel.SignedTextRoundTrip | src/UIPropertyPanel.cpp:2083-2100 | the decimal text of every 64-bit signed value parses back to it |
| PropertyPanel.FirstMatch | src/UIPropertyPanel.cpp:1961-1980 | the index of the first enumerator answering to the text, by full or short name ignoring case, none answering before it; none when no enumerator answers |
| PropertyPanel.MatchedValue | src/UIPropertyPanel.cpp:1961-1980 | an enumerator's bits exactly when some enumerator answers to the text |
| PropertyPanel.ResolveEnumText | src/UIPropertyPanel.cpp:1951-2000 | empty trimmed text resolves to nothing; the first answering enumerator wins; otherwise the text parsed with the enum's signedness and converted to its width |
| PropertyPanel.ScanEnumNames | src/UIPropertyPanel.cpp:1958-1980 | the enumerator loop resolves exactly when some enumerator answers, and then to the first answering enumerator's bits |
| PropertyPanel.EntryMatches | src/UIPropertyPanel.cpp:1963-1979 | one turn of the loop hits exactly when the full name or the part after the last "::" equals the text ignoring case |
| PropertyPanel.FirstMatchAt | src/UIPropertyPanel.cpp:1961-1980 | a matching enumerator with no match before it is the first match and gives its bits |
| PropertyPanel.WriteEnumText | src/UIPropertyPanel.cpp:1943-2004 | succeeds exactly when the field is a writable enum of a supported width and the text resolves to bits that fit; then reading the field gives those bits; on failure the field is unchanged |
| PropertyPanel.NameBeforeNumber | src/UIPropertyPanel.cpp:1958-2000 | a text some enumerator answers to resolves to the bits of an enumerator at or before it, never to a number |
| PropertyPanel.NumberFallback | src/UIPropertyPanel.cpp:1982-2000 | an unsigned enum accepts a fitting value written in decimal when no enumerator is named like it |
| PropertyPanel.PrettyFieldName | src/UIPropertyPanel.cpp:1446-1464 | the loop computes the prettified name: a space before each upper-case letter that follows a lower-case letter or a digit |
| PropertyPanel.PrettifiedOnlyAddsSpaces | src/UIPropertyPanel.cpp:1446-1464 | with the spaces removed, the prettified name is the name with its spaces removed |
| PropertyPanel.PrettifiedRestores | src/UIPropertyPanel.cpp:1446-1464 | for a name without spaces, removing the added spaces restores the name |
| PropertyPanel.PrettifiedIdempotent | src/UIPropertyPanel.cpp:1446-1464 | prettifying a prettified name changes nothing |
| PropertyPanel.PrettifiedLast | src/UIPropertyPanel.cpp:1446-1464 | prettifying keeps the last character last |
| PropertyPanel.ParseBool | src/UIPropertyPanel.cpp:2067-2081 | true exactly when the trimmed text is 1, true, yes or on ignoring case; false exactly when it is 0, false, no or off |
| PropertyPanel.ParseBoolIgnoresPadding | src/UIPropertyPanel.cpp:2067-2081 | surrounding whitespace does not change what is read |
| PropertyPanel.BindingTable.constructor | include/UIPropertyPanel.h:181-182 | a new panel has no bindings and generation 0 |
| PropertyPanel.BindingTable.ResolveLiveBinding | src/UIPropertyPanel.cpp:2275-2291 | a binding is returned exactly when the generation is the current one, the index is in range and the binding belongs to that generation |
| PropertyPanel.BindingTable.ClearObject | src/UIPropertyPanel.cpp:544-561 | the generation advances and the bindings are cleared, so no index resolves under any generation |
| PropertyPanel.BindingTable.BeginRebuild | src/UIPropertyPanel.cpp:584-613 | the generation advances; the bindings are cleared when the content root was created and kept otherwise; in both cases no binding that resolved before resolves now, and none resolves under the new generation |
| PropertyPanel.BindingTable.AddBinding | src/UIPropertyPanel.cpp:1291-1292 | the binding is appended with the current generation at the next index, resolves there, and every other index resolves as before |
| GameRuntime.ParseBooleanEnvValue | src/GameRuntime.cpp:74-95 | an unset or empty variable gives nothing; true exactly for 1, true, yes, on or enabled ignoring case; false exactly for 0, false, no, off or disabled ignoring case |
| GameRuntime.WordListsDisjoint | src/GameRuntime.cpp:82-92 | no text is both a true word and a false word, so the order of the two tests does not matter |
| GameRuntime.MapUiKeyCode | src/GameRuntime.cpp:287-429 | letters map to their lower-case ASCII codes, number and numpad digits to '0'..'9', both Enter keys to 13, and an unlisted key to its raw code |
| GameRuntime.PrintableKeysDistinct | src/GameRuntime.cpp:287-429 | letter and digit keys get printable ASCII codes, and two of them share a code exactly when they are the same key |
| GameRuntime.Step | src/GameRuntime.cpp:435-467 | one decoding step consumes between 1 and 4 bytes, never more than remain |
| GameRuntime.CodepointsAtMostBytes | src/GameRuntime.cpp:431-474 | at most one codepoint is pushed per byte |
| GameRuntime.AsciiUnchanged | src/GameRuntime.cpp:431-474 | text of bytes below 0x80 comes through byte for byte |
| GameRuntime.TruncatedLead | src/GameRuntime.cpp:439-467 | a lead byte whose sequence is cut off by the end of the text is pushed alone |
| GameRuntime.BrokenSequence | src/GameRuntime.cpp:439-467 | a lead byte followed by a byte that is not a continuation byte is pushed alone |
| GameRuntime.NotValidating | src/GameRuntime.cpp:439-467 | overlong forms and surrogates are decoded, not rejected: C0 80 gives 0 and ED A0 80 gives D800 |
| GameRuntime.Encode | src/GameRuntime.cpp:439-467 | the RFC 3629 section 3 encoding of one codepoint in 1 to 4 bytes, the reference the decoder is checked against in StepEncoded and DecodeEncoded |
| GameRuntime.StepEncoded | src/GameRuntime.cpp:439-467 | every complete RFC 3629 sequence decodes to its codepoint and consumes its length, whatever follows it |
| GameRuntime.DecodeEncoded | src/GameRuntime.cpp:431-474 | decoding the RFC 3629 encoding of a list of codepoints gives the list back |
| GameRuntime.DecodedPrefixStep | src/GameRuntime.cpp:433-473 | one turn of the loop moves one codepoint from the rest of the text to the pushed prefix |
| GameRuntime.PushUtf8Codepoints | src/GameRuntime.cpp:431-474 | the loop pushes exactly the decoded codepoints of the text, at most one per byte |
| EditorCore.ExecutedShape | src/Editor/EditorCoreServices.cpp:484-503 | executing keeps the history within 256 commands, puts the command on top of undo with nothing left to redo, and drops the oldest undo entry exactly when undo was full |
| EditorCore.UndoRedoRoundTrip | src/Editor/EditorCoreServices.cpp:505-543 | undo then redo gives back the same history, and so does redo then undo |
| EditorCore.UndoneKeepsCommands | src/Editor/EditorCoreServices.cpp:505-523 | undo moves one command from the undo stack to the redo stack: the bound holds and the commands are the same multiset |
| EditorCore.RedoneKeepsCommands | src/Editor/EditorCoreServices.cpp:525-543 | redo moves one command from the redo stack to the undo stack: the bound holds and the commands are the same multiset |
| EditorCore.CommandService.constructor | include/Editor/EditorCoreServices.h:75-77 | both stacks start empty |
| EditorCore.CommandService.Execute | src/Editor/EditorCoreServices.cpp:484-503 | a null command fails with InvalidArgument; a command whose Execute fails leaves the stacks alone and reports its error; otherwise the history becomes the executed history |
| EditorCore.CommandService.Undo | src/Editor/EditorCoreServices.cpp:505-523 | an empty undo stack fails with NotReady; a failed Undo puts the command back; a successful one moves it to redo |
| EditorCore.CommandService.Redo | src/Editor/EditorCoreServices.cpp:525-543 | an empty redo stack fails with NotReady; a failed Execute puts the command back; a successful one moves it to undo |
| EditorCore.CommandService.ClearHistory | src/Editor/EditorCoreServices.cpp:545-549 | both stacks end empty |
| EditorCore.PausedExecutionProfile | src/Editor/EditorCoreServices.cpp:880-889 | the PIE profile with gameplay, ECS ticking, physics simulation, audio and networking turned off and every other phase as PIE has it |
| EditorCore.PlayTransitions | src/Editor/EditorCoreServices.cpp:708-721 | Play while playing succeeds and changes nothing; a successful Play always ends playing; a failed one keeps the state; without a world the world is untouched |
| EditorCore.PauseTransitions | src/Editor/EditorCoreServices.cpp:723-740 | Pause when not playing succeeds and changes nothing; while playing with a world it ends paused with gameplay stopped |
| EditorCore.StopTransitions | src/Editor/EditorCoreServices.cpp:742-750 | Stop when stopped succeeds and changes nothing; a successful Stop always ends stopped |
| EditorCore.TransitionsKeepSessionValid | src/Editor/EditorCoreServices.cpp:708-878 | every transition keeps an active session's editor snapshot |
| EditorCore.PlayStopRoundTrip | src/Editor/EditorCoreServices.cpp:752-878 | playing from the editor and stopping again reports the snapshot restore's outcome and, when it succeeds, gives back the editor world's kind and profile and drops the snapshot |
| EditorCore.GameWorld.constructor | include/World.h:174-176 | a world with the given kind and execution profile |
| EditorCore.PieService.constructor | src/Editor/EditorCoreServices.cpp:691-699 | stopped, with no snapshot and the editor world kind and profile to return to |
| EditorCore.PieService.StartSession | src/Editor/EditorCoreServices.cpp:752-811 | the outcome, session and world are the start transition of the old ones |
| EditorCore.PieService.ResumeSession | src/Editor/EditorCoreServices.cpp:813-837 | the outcome, session and world are the resume transition of the old ones |
| EditorCore.PieService.StopSession | src/Editor/EditorCoreServices.cpp:839-878 | the outcome, session and world are the stop transition of the old ones |
| EditorCore.PieService.Play | src/Editor/EditorCoreServices.cpp:708-721 | the outcome, session and world are the play step of the old ones |
| EditorCore.PieService.Pause | src/Editor/EditorCoreServices.cpp:723-740 | the outcome, session and world are the pause step of the old ones |
| EditorCore.PieService.Stop | src/Editor/EditorCoreServices.cpp:742-750 | the outcome, session and world are the stop step of the old ones |
| EditorCore.ReloadIsSessionBoundary | src/Editor/EditorCoreServices.cpp:1206-1262 | the world counts as reloaded exactly when a Play or Stop succeeded and crossed between stopped and running |
| EditorCore.ToolbarStep | src/Editor/EditorCoreServices.cpp:1212-1249 | Play, Pause and Stop go to the PIE service; ReloadIsSessionBoundary and ToolbarJoinKeepsSession state the outcome |
| EditorCore.ToolbarJoinKeepsSession | src/Editor/EditorCoreServices.cpp:1231-1249 | joining player 2 or another action leaves session and world unchanged and is no reload; the join fails only with a running session and no host (NotReady) or when the host's request fails |
| EditorCore.ApplyToolbarAction | src/Editor/EditorCoreServices.cpp:1206-1262 | the PIE session and world follow the toolbar step; after a reload the command history is cleared, otherwise it is untouched |
| EditorCore.CreatedNodeName | src/Editor/EditorCoreServices.cpp:377-381 | a created node is named by its short type name, or "Node" when that is empty; never empty |
| EditorCore.PlanHierarchyAction | src/Editor/EditorCoreServices.cpp:272-433 | no world gives NotReady; delete and remove-component need a target; each planned edit is justified by its action, the target's resolution and the type's kind |
| EditorCore.HierarchyRejections | src/Editor/EditorCoreServices.cpp:295-416 | deleting the world node, adding a type that is not a node or is a world, adding a level below a node, adding a component without a target and any other action are rejected |
| EditorCore.ExecuteHierarchyAction | src/Editor/EditorCoreServices.cpp:272-433 | the validation's error when the plan fails, otherwise what the world reports for the edit |
| EditorCore.PendingHierarchyAction | src/Editor/EditorCoreServices.cpp:1195-1204 | a pending request runs exactly when no PIE session is active, and is dropped otherwise |
| ServiceHost.DepScan | src/GameplayHost.cpp:1086-1101 | Ready exactly when every dependency is registered and already resolved; Missing only when some dependency is not registered |
| ServiceHost.CheckDependencies | src/GameplayHost.cpp:1086-1101 | the dependency loop, in declaration order, computes the dependency status |
| ServiceHost.Scan | src/GameplayHost.cpp:1080-1116 | a selection round chooses only a slot it examined |
| ServiceHost.ScanSound | src/GameplayHost.cpp:1080-1116 | a round's answer is truthful: a chosen slot is unresolved, ready and has the lowest priority (then the lowest slot) among the ready ones; none means no slot is ready; a failure names a missing dependency |
| ServiceHost.SelectNext | src/GameplayHost.cpp:1080-1116 | the inner loop over all slots computes one selection round |
| ServiceHost.RoundMissing | src/GameplayHost.cpp:1091-1097 | a round that fails fails with NotFound, and some unscheduled service has an unregistered dependency |
| ServiceHost.RoundStuck | src/GameplayHost.cpp:1118-1122 | a round that finds nothing leaves every unscheduled service waiting on an unresolved dependency |
| ServiceHost.OrderFromExtends | src/GameplayHost.cpp:1076-1126 | the rounds keep the order's slots distinct and add one slot per successful round |
| ServiceHost.OrderFromSteps | src/GameplayHost.cpp:1076-1126 | every slot the rounds add was a legal choice of its round |
| ServiceHost.BuildOrder | src/GameplayHost.cpp:1065-1133 | the start order and its outcome; BuildOrderSchedulesAll, BuildOrderFailures and BuildOrderNeedsRegisteredDependencies state what a build gives |
| ServiceHost.BuildOrderSchedulesAll | src/GameplayHost.cpp:1065-1133 | a successful build schedules every registered service exactly once, each as the best ready slot of its round |
| ServiceHost.DependenciesStartFirst | src/GameplayHost.cpp:1065-1133 | in a successful build every dependency of a service is registered and scheduled before it |
| ServiceHost.BuildOrderFailures | src/GameplayHost.cpp:1065-1133 | a build fails only with NotFound, for an unregistered dependency, or InternalError, when every unscheduled service waits on an unresolved one |
| ServiceHost.BuildOrderNeedsRegisteredDependencies | src/GameplayHost.cpp:1091-1097 | a successful build implies every dependency of every service is registered |
| ServiceHost.IndependentServicesSchedule | src/GameplayHost.cpp:1065-1133 | services without dependencies always get a start order |
| ServiceHost.ComputeServiceOrder | src/GameplayHost.cpp:1065-1133 | the nested loops compute the specified start order and outcome |
| ServiceHost.ChainInsideClosedSet | src/GameplayHost.cpp:980-1005 | everything a dependency chain from the target reaches lies inside every set that holds the target and is closed under dependents, so the removal mask is the least such set |
| ServiceHost.DependentsToVisit | src/GameplayHost.cpp:990-1004 | the candidate loop queues exactly the unmarked services that depend on the current one |
| ServiceHost.DependentsOf | src/GameplayHost.cpp:978-1005 | the worklist marks exactly the services reached from the target by dependency chains, and the mask is closed under dependents |
| ServiceHost.KeptSlots | src/GameplayHost.cpp:1026-1034 | the slots a mask leaves, each unmarked, all of them, in increasing order |
| ServiceHost.PendingMembers | src/GameplayHost.cpp:1142-1148 | the pending slots are exactly the not-yet-initialized slots of the order |
| ServiceHost.LeadingSuccesses | src/GameplayHost.cpp:1142-1165 | the count of pending services that start before the first failure: all of them succeed and the next one fails |
| ServiceHost.ShutdownCallsAllRunning | src/GameplayHost.cpp:1188-1217 | when every visited service is selected and running, the walk shuts each down, last first |
| ServiceHost.StartPass | src/GameplayHost.cpp:1140-1185 | the pass keeps the entries' types and dependencies; a failed pass leaves every entry as it was |
| ServiceHost.InitEffect | src/GameplayHost.cpp:1135-1186 | initialisation keeps the entries' types, yields a well-formed order, and on failure leaves every entry as it was |
| ServiceHost.InitEffectStartsAll | src/GameplayHost.cpp:1135-1186 | a successful initialisation leaves every registered service running |
| ServiceHost.InitThenShutdown | src/GameplayHost.cpp:1135-1217 | starting everything from stopped and then shutting down over the start order mirrors the calls in reverse and gives back the entries as they were |
| ServiceHost.RollbackRestores | src/GameplayHost.cpp:1150-1161 | shutting down over the same slots the services a pass started from stopped gives back the entries |
| ServiceHost.FailedPass | src/GameplayHost.cpp:1150-1161 | a failed pass stopped right after its started prefix; rolling that prefix back restores the entries with the shutdown calls in reverse start order |
| ServiceHost.ShutdownWalk | src/GameplayHost.cpp:1200-1216 | the reverse walk computes the stopped entries and the shutdown calls |
| ServiceHost.AbandonPass | src/GameplayHost.cpp:1150-1161 | after a failed start, the calls so far plus the rollback form the pass's specified report |
| ServiceHost.StartInOrder | src/GameplayHost.cpp:1142-1185 | the start loop computes the specified pass report |
| ServiceHost.InitializePass | src/GameplayHost.cpp:1135-1186 | building the order then starting along it computes the specified initialisation report |
| ServiceHost.SurvivorsExclude | src/GameplayHost.cpp:1026-1036 | the kept entries have distinct types and none of them has the type of a removed entry |
| ServiceHost.KeepUnmarked | src/GameplayHost.cpp:1026-1036 | the loop moves exactly the unmarked entries, in order, into the new list |
| ServiceHost.TypeIndex | src/GameplayHost.cpp:1056-1063 | the rebuilt index maps each registered type to a slot holding it, and every entry's type is a key |
| ServiceHost.TypeIndexPicksLast | src/GameplayHost.cpp:1056-1063 | when a type occurs more than once, the rebuilt index keeps its last slot |
| ServiceHost.TypeIndexMatches | src/GameplayHost.cpp:1056-1063 | with distinct types the rebuilt index matches the list exactly |
| ServiceHost.IndexMatchesDistinct | src/GameplayHost.cpp:939-951 | a matching type index implies the registered types are distinct |
| ServiceHost.RebuildIndex | src/GameplayHost.cpp:1056-1063 | the loop computes the rebuilt index |
| ServiceHost.RegisterEffect | src/GameplayHost.cpp:930-967 | a missing instance fails with InvalidArgument; a known type is accepted unchanged; registration before the host runs always succeeds; a failure leaves entries and index as they were; otherwise the type becomes a key and earlier entries keep their types |
| ServiceHost.AddService | src/GameplayHost.cpp:944-966 | appending a new type keeps the state valid; on a failed initialisation the entry is popped and entries and index are restored |
| ServiceHost.Restart | src/GameplayHost.cpp:1037-1053 | after a removal the index is rebuilt from the kept entries and the state is valid |
| ServiceHost.UnregisterEffect | src/GameplayHost.cpp:969-1054 | an unknown type fails with NotFound and changes nothing; otherwise the remaining types are exactly those of the unmarked entries |
| ServiceHost.UnregisterKeys | src/GameplayHost.cpp:1026-1038 | the keys of the rebuilt index are exactly the types of the unmarked entries |
| ServiceHost.RegisterAll | src/Editor/GameEditor.cpp:238-258 | registering the defaults in turn never loses a registered type, and before the host runs every default ends up registered |
| ServiceHost.RegisterThenUnregister | src/GameplayHost.cpp:930-1054 | registering a new type on a stopped host and then removing it, with nothing depending on it, restores the entries and the index |
| ServiceHost.Register | src/GameplayHost.cpp:930-967 | the value-level registration computes its specified effect |
| ServiceHost.Unregister | src/GameplayHost.cpp:969-1054 | the value-level removal computes its specified effect with a removal mask closed under dependents and reached by dependency chains |
| ServiceHost.RestartOver | src/GameplayHost.cpp:1037-1053 | the tail of a removal computes its specified effect |
| ServiceHost.RegisterDefaults | src/Editor/GameEditor.cpp:238-258 | registering the defaults one after another computes the specified calls and state |
| ServiceHost.ServiceRegistry.constructor | include/GameplayHost.h:358-360 | no services, an empty index and no start order |
| ServiceHost.ServiceRegistry.BuildServiceOrder | src/GameplayHost.cpp:1065-1133 | the outcome and the stored start order are the specified build of the entries and the index |
| ServiceHost.ServiceRegistry.InitializeServices | src/GameplayHost.cpp:1135-1186 | the outcome, calls, entries and start order are the specified initialisation of the old entries |
| ServiceHost.ServiceRegistry.ShutdownServices | src/Editor/GameEditor.cpp:386-400 | every running service is shut down in reverse start order, and the calls say so |
| ServiceHost.ServiceRegistry.ShutdownServicesBuildingOrder | src/GameplayHost.cpp:1188-1217 | nothing happens without services; an order is built first when none exists; then every running service is shut down in reverse start order |
| ServiceHost.ServiceRegistry.RegisterService | src/GameplayHost.cpp:930-967 | the outcome, calls and new state are the registration effect of the old state |
| ServiceHost.ServiceRegistry.UnregisterService | src/GameplayHost.cpp:969-1054 | the outcome, calls and new state are the removal effect of the old state, with the mask of the target's transitive dependents |
| ServiceHost.ServiceRegistry.EnsureDefaultServicesRegistered | src/Editor/GameEditor.cpp:238-258 | the defaults are registered on the first call only; later calls change nothing |
| Gameplay.ScoreAutoPossessTarget | src/GameplayHost.cpp:41-72 | -1 exactly for a node that cannot be possessed; a positive score exactly for a possessable node with a scored component; each present scored component contributes at least its weight, and the score never exceeds the sum of the weights |
| Gameplay.ScoreMonotone | src/GameplayHost.cpp:41-72 | a possessable node with every scored component of another scores at least as high, and strictly higher when it has one more |
| Gameplay.WinnerIsBest | src/GameplayHost.cpp:1695-1736 | the scan's running winner over the first n nodes is -1 exactly when none of them is eligible, and otherwise an eligible node whose score beats every earlier node's and is at least every later one's (first on a tie) |
| Gameplay.AutoPossessTarget | src/GameplayHost.cpp:1695-1736 | the null handle when no node is eligible; otherwise the handle of the best node: unclaimed, highest positive score, first on a tie |
| Gameplay.FindAutoPossessTarget | src/GameplayHost.cpp:1695-1736 | the scan's answer is AutoPossessTarget's: null when nothing is eligible, else the best eligible node's handle |
| Gameplay.BestUnique | src/GameplayHost.cpp:1695-1736 | when node b is the best one, auto-possession picks exactly b's handle |
| Gameplay.PlayersOf | src/GameplayHost.cpp:858-875 | the players a connection owns: exactly those players with that owner, no more of them than there are players |
| Gameplay.LocalPlayersForConnection | src/GameplayHost.cpp:858-875 | the loop collects exactly the connection's players, in pool order |
| Gameplay.MatchIsPlayer | src/GameplayHost.cpp:858-875 | every player in the connection's list is one of the players and has that owner |
| Gameplay.PlayerIsMatch | src/GameplayHost.cpp:858-875 | every player of the connection appears in the connection's list |
| Gameplay.TakenThroughMatches | src/GameplayHost.cpp:1829-1850 | an index appears in the connection's list exactly when some player of that owner holds it |
| Gameplay.FirstAvailablePlayerIndexForOwner | src/GameplayHost.cpp:1829-1850 | the least index the owner's players leave free; none when every index below the unsigned int maximum is taken |
| Gameplay.FindLocalPlayerByOwnerAndIndex | src/GameplayHost.cpp:1852-1868 | the null handle when no player of the owner has the index; otherwise the handle of the first such player |
| Gameplay.ExistingIsPlayer | src/GameplayHost.cpp:1852-1868 | a non-null lookup result is a player of that owner at that index |
| Gameplay.NullMeansFree | src/GameplayHost.cpp:1852-1868 | when every player has a handle, a null lookup result means the index is free for that owner |
| Gameplay.RemotePlayerName | src/GameplayHost.cpp:511-515 | a remote default name starts with "RemotePlayer_" and has more after it |
| Gameplay.DefaultPlayerName | src/GameplayHost.cpp:504-516 | never empty: the given name, else "LocalPlayer" for connection 0, else the remote name |
| Gameplay.DigitsSplit | src/GameplayHost.cpp:511-515 | two digit runs joined by '_' split back into the same runs |
| Gameplay.RemotePlayerNamesDistinct | src/GameplayHost.cpp:511-515 | equal remote default names mean the same owner and index |
| Gameplay.CreateLocalPlayer | src/GameplayHost.cpp:437-466 | the world's outcome is returned; on success the new player appears last with an empty name replaced by "LocalPlayer", the given index, owner and replication and no possessed pawn; on failure nothing changes |
| Gameplay.FirstServicePick | src/GameplayHost.cpp:1765-1792 | the first service answer that is neither null nor outside the player's world, in start order, with every earlier answer unusable; the null handle exactly when no answer is usable |
| Gameplay.ChosenTarget | src/GameplayHost.cpp:1745-1805 | whatever the sources answer, the target settled on is null or a node of the player's world |
| Gameplay.Possess | src/GameplayHost.cpp:1738-1806 | only the possessed node can change; a player already possessing a node keeps it; a newly possessed node lies in the player's world |
| Gameplay.PossessionPriority | src/GameplayHost.cpp:1745-1800 | a valid game-mode pick wins; the game's valid pick counts only without one; the first valid service pick only when neither gave one; auto-possession's node only when no source gave a valid target, and only when it lies in the player's world |
| Gameplay.AutoPossession | src/GameplayHost.cpp:1794-1805 | with no game-mode, game or service answer, an unpossessed player ends up possessing the best eligible node when that node is in its world |
| Gameplay.EnsurePlayerHasPossession | src/GameplayHost.cpp:1738-1806 | the step's outcome is Possess over the sources' answers and AutoPossessTarget over the pool, so it keeps an existing possession, follows the priority order and only takes in-world nodes |
| Gameplay.PlayerNamed | src/GameplayHost.cpp:496-498 | the position of the player record the found handle names, of that owner and at that index |
| Gameplay.JoinExisting | src/GameplayHost.cpp:494-501 | the found player, of the owner and at the chosen index, is replaced by itself after the possession step; nothing else changes and owner-index slots stay unique |
| Gameplay.PossessNew | src/GameplayHost.cpp:522-527 | the appended player is replaced by itself after the possession step over the grown list; earlier players are untouched and slots stay unique |
| Gameplay.JoinPlayer | src/GameplayHost.cpp:468-529 | refused with InvalidArgument on a pure client; errors change nothing; running out of indices is InternalError; an existing player at the owner and index is returned and goes through the possession step; otherwise one player is appended with the chosen, previously free index and the default name, then goes through the possession step; owner-index slots stay unique |
| Gameplay.Diff | src/GameplayHost.cpp:1236-1302 | a reported diff's added and removed sets are disjoint, new and gone respectively, and applied to the known set give the current one; an unreported or empty diff is empty |
| Gameplay.CollectIds | src/GameplayHost.cpp:1240-1256 | the loop collects exactly the ids of the non-null handles |
| Gameplay.GameplayHost.constructor | include/GameplayHost.h:362-364 | no connections, levels or local players are known |
| Gameplay.GameplayHost.RefreshObservedConnectionState | src/GameplayHost.cpp:1304-1345 | without a world nothing changes; otherwise the session's connections become the known ones and the diff is reported only on a server outside seeding |
| Gameplay.GameplayHost.RefreshObservedWorldState | src/GameplayHost.cpp:1236-1302 | the connections are refreshed, the known level and player ids become those of the current non-null handles, and each diff is the known-versus-current diff, reported unless seeding |
| UiTree.DescAbove | src/UISystem.cpp:225-243 | every member of a subtree is a live context with an id at least the subtree root's |
| UiTree.DescUp | src/UISystem.cpp:225-243 | a member of a subtree other than its root has its parent in the subtree |
| UiTree.ChildDesc | src/UISystem.cpp:225-243 | a child's subtree lies within its parent's |
| UiTree.DescTransitive | src/UISystem.cpp:225-243 | a subtree contains the subtree of each of its members |
| UiTree.SiblingsDisjoint | src/UISystem.cpp:653-666 | the subtrees of two different children of one context share no context |
| UiTree.DescFrame | src/UISystem.cpp:653-666 | a subtree depends only on its own contexts' child lists |
| UiTree.OrderMembers | src/UISystem.cpp:225-243 | the pre-order listing names exactly the subtree's contexts |
| UiTree.OrderDistinct | src/UISystem.cpp:225-243 | the listing names no context twice |
| UiTree.DescCoversAll | src/UISystem.cpp:761-770 | when every context but the root has a parent, the root's subtree holds every context |
| UiTree.OrderParentsFirst | src/UISystem.cpp:225-243 | the listing starts with the subtree root and puts every context after its parent |
| UiTree.DeepestSound | src/UISystem.cpp:245-272 | the pointer target is 0 exactly when the context is 0, missing or not hit; otherwise it is a hit context of the subtree none of whose children is hit |
| UiRegistry.Without | src/UISystem.cpp:682-686 | the erase-remove idiom keeps exactly the elements other than the removed one |
| UiRegistry.RemovedTwice | src/UISystem.cpp:653-700 | two removals in a row are one removal of both sets when the second edits the same parent or removes the first one's |
| UiRegistry.EraseContext | src/UISystem.cpp:668-699 | for a context whose children are gone: its binding, its entry in its parent's child list, its address and the context are removed, the active input falls back to the root and the capture is dropped |
| UiRegistry.DestroyedTree | src/UISystem.cpp:653-700 | destroying a subtree leaves a well-formed tree |
| UiRegistry.DestroyedIndexes | src/UISystem.cpp:653-700 | destroying a subtree keeps the viewport bindings one-to-one and the address index exact |
| UiRegistry.DestroyedMeaning | src/UISystem.cpp:653-700 | exactly the subtree's contexts are gone; no child list, binding or address refers to one; only the parent's child list changes, losing the context; the active input falls back to the root and the capture is cleared when they were inside |
| UiRegistry.DestroyTree | src/UISystem.cpp:653-700 | the recursion computes the specified destruction and keeps the registry well formed |
| UiRegistry.DestroyChildren | src/UISystem.cpp:661-666 | the loop over a copy of the child list removes exactly the children's subtrees and keeps the registry well formed |
| UiRegistry.Rebind | src/UISystem.cpp:797-832 | the viewport's previous context and the context's previous viewport are unbound, the pair is bound, and the bindings stay mutually inverse |
| UiRegistry.UnbindViewport | src/UISystem.cpp:834-855 | the viewport's binding is dropped from both maps and the bindings stay mutually inverse |
| UiRegistry.UnbindContextMaps | src/UISystem.cpp:857-878 | the context's binding is dropped from both maps and the bindings stay mutually inverse |
| UiRegistry.AddContext | src/UISystem.cpp:131-163 | the next id, fresh, is attached under the parent with its address indexed, and the registry stays well formed |
| UiRegistry.CreateWithinState | src/UISystem.cpp:613-651 | creating under a live parent of an initialised system keeps the whole state well formed |
| UiRegistry.CreateIn | src/UISystem.cpp:613-651 | parent 0 is InvalidArgument, an uninitialised system NotReady, a missing parent NotFound, a missing context object InternalError; on success the new context is attached and the state stays well formed |
| UiRegistry.DestroyIn | src/UISystem.cpp:702-728 | 0 and the root are InvalidArgument, an uninitialised system NotReady, an unknown id NotFound; on success the subtree is destroyed and the state stays well formed |
| UiRegistry.DestroyWithinState | src/UISystem.cpp:702-728 | destroying a context other than the root keeps the state well formed |
| UiRegistry.FindDeepestPointerTarget | src/UISystem.cpp:245-272 | the recursion returns 0 exactly when the context is 0, missing or not hit, and otherwise a hit context of the subtree with no hit child |
| UiRegistry.BuildContextOrder | src/UISystem.cpp:225-243 | appends the pre-order listing of the subtree to what was there |
| UiSystem.UISystem.constructor | include/UISystem.h:211-222 | not initialised, with no contexts, bindings or addresses and no ids handed out |
| UiSystem.UISystem.ShutdownUnlocked | src/UISystem.cpp:945-964 | every map is cleared and every id and flag reset |
| UiSystem.UISystem.CreateContextLocked | src/UISystem.cpp:131-163 | a missing context object gives 0 and changes nothing; otherwise the next id is attached under the parent with its address indexed |
| UiSystem.UISystem.Initialize | src/UISystem.cpp:280-322 | invalid settings are InvalidArgument and change nothing; a failed root allocation leaves the system shut down with InternalError; otherwise the system holds just the root context 1, active, and is initialised |
| UiSystem.UISystem.Shutdown | src/UISystem.cpp:324-331 | the system ends shut down and empty |
| UiSystem.UISystem.CreateContext | src/UISystem.cpp:613-651 | the checks in source order with their error codes; on success the new id is the next one and the context is attached under the parent; on failure nothing changes |
| UiSystem.UISystem.DestroyContext | src/UISystem.cpp:702-728 | the checks in source order with their error codes; on success the context's whole subtree is destroyed; on failure nothing changes |
| UiSystem.UISystem.BindViewportContext | src/UISystem.cpp:797-832 | zero ids are InvalidArgument, an uninitialised system NotReady, an unknown context NotFound; on success the pair is bound one-to-one, replacing earlier bindings of either |
| UiSystem.UISystem.UnbindViewportContext | src/UISystem.cpp:834-855 | viewport 0 is InvalidArgument, an uninitialised system NotReady; otherwise the viewport's binding, if any, is dropped |
| UiSystem.UISystem.UnbindContext | src/UISystem.cpp:857-878 | context 0 is InvalidArgument, an uninitialised system NotReady; otherwise the context's binding, if any, is dropped |
| UiSystem.UISystem.ContextIdFor | src/UISystem.cpp:744-759 | the id registered for an address, which is the only context at that address; 0 for a null address or none |
| UiSystem.UISystem.KeyboardEligible | src/UISystem.cpp:203-223 | a live context with no viewport bound is always eligible; a bound one only when the last pointer position is recorded and hits it |
| UiSystem.UISystem.ContextIds | src/UISystem.cpp:761-770 | every live context exactly once, the root first and each context after its parent |
| EditorAssets.ParsePackSearchPathEnv | src/Editor/EditorAssetService.cpp:729-755 | the token loop gives exactly the non-empty runs between `;` and `:` separators, in order |
| EditorAssets.PackSearchPathsAreTokens | src/Editor/EditorAssetService.cpp:729-755 | every parsed path is non-empty and holds no separator |
| EditorAssets.Fields | src/Editor/EditorAssetService.cpp:733-748 | the runs between separators, empty ones included: at least one, none holding a separator |
| EditorAssets.DropEmpty | src/Editor/EditorAssetService.cpp:737-754 | only non-empty tokens are kept |
| EditorAssets.DropEmptyKeepsTokens | src/Editor/EditorAssetService.cpp:737-754 | dropping empty runs leaves only path tokens |
| EditorAssets.ConcatDropEmpty | src/Editor/EditorAssetService.cpp:737-754 | skipping empty tokens loses no character |
| EditorAssets.ConcatFields | src/Editor/EditorAssetService.cpp:733-748 | the runs together hold every character that is not a separator, in order |
| EditorAssets.PackSearchPathsConcat | src/Editor/EditorAssetService.cpp:729-755 | concatenating the parsed paths gives back the raw value without its separators |
| EditorAssets.FieldsOfToken | src/Editor/EditorAssetService.cpp:733-748 | a text without separators is one run |
| EditorAssets.FieldsSnoc | src/Editor/EditorAssetService.cpp:733-748 | one more character either ends the current run or extends it |
| EditorAssets.FieldStepAppend | src/Editor/EditorAssetService.cpp:733-748 | a step only touches the last run |
| EditorAssets.FieldsSplit | src/Editor/EditorAssetService.cpp:737-744 | a separator splits the runs of its two sides |
| EditorAssets.FieldsJoin | src/Editor/EditorAssetService.cpp:729-755 | splitting a `;`-joined list of tokens gives the tokens back |
| EditorAssets.DropEmptyOfTokens | src/Editor/EditorAssetService.cpp:737-754 | a list of non-empty tokens loses nothing to the filter |
| EditorAssets.PackSearchPathsJoin | src/Editor/EditorAssetService.cpp:729-755 | parsing a `;`-joined list of search paths returns exactly that list |
| EditorAssets.AssetKindToLabel | src/Editor/EditorAssetService.cpp:757-772 | the fallback label `Asset` is given exactly to kinds other than world, level and node graph |
| EditorAssets.AssetKindLabelDistinct | src/Editor/EditorAssetService.cpp:757-772 | two recognised kinds with the same label are the same kind |
| EditorAssets.Discover | src/Editor/EditorAssetService.cpp:488-498 | an entry copies key, variant and kind, labels the kind, and names an unnamed asset by its key |
| EditorAssets.FirstPerKeySnoc | src/Editor/EditorAssetService.cpp:482-499 | one more listing item is kept exactly when its key was not seen |
| EditorAssets.AssetKeysSnoc | src/Editor/EditorAssetService.cpp:482-499 | appending an entry adds its key |
| EditorAssets.FirstWithKeySnoc | src/Editor/EditorAssetService.cpp:482-499 | appending an item does not change which earlier items come first with their key |
| EditorAssets.FirstPerKeyKeys | src/Editor/EditorAssetService.cpp:482-499 | the kept entries have distinct keys, and exactly the listing's keys |
| EditorAssets.FirstPerKeyComplete | src/Editor/EditorAssetService.cpp:482-499 | every item that is first with its key has its entry |
| EditorAssets.FirstPerKeySound | src/Editor/EditorAssetService.cpp:482-499 | every entry comes from an item that is first with its key |
| EditorAssets.FirstPerKeyShape | src/Editor/EditorAssetService.cpp:482-499 | one entry per key, made from the first listing item with that key |
| EditorAssets.DiscoverFirstPerKey | src/Editor/EditorAssetService.cpp:476-499 | the listing loop with its seen-keys set keeps the first item per key |
| EditorAssets.AssetLessTotal | src/Editor/EditorAssetService.cpp:501-515 | any two entries are ordered one way, or tie on name, label, variant and key |
| EditorAssets.AssetLessTransitive | src/Editor/EditorAssetService.cpp:501-515 | the name, label, variant, key comparison is transitive |
| EditorAssets.AssetLessWeakOrder | src/Editor/EditorAssetService.cpp:501-515 | the comparison is a strict weak order, as `std::sort` needs |
| EditorAssets.PermutationKeys | src/Editor/EditorAssetService.cpp:501-515 | sorting keeps the keys and their distinctness |
| EditorAssets.CountOnceDistinct | src/Editor/EditorAssetService.cpp:501-515 | an element counted once occurs at one position only |
| EditorAssets.DistinctKeysOnce | src/Editor/EditorAssetService.cpp:501-515 | with distinct keys no entry occurs twice |
| EditorAssets.DiscoveredShape | src/Editor/EditorAssetService.cpp:476-517 | the discovered list is sorted, is a permutation of the de-duplicated entries, and has one entry per listed key |
| EditorAssets.BuildKeyIndex | src/Editor/EditorAssetService.cpp:518-523 | the index maps exactly the entries' keys, each to the last position holding it |
| EditorAssets.IndexStep | src/Editor/EditorAssetService.cpp:520-523 | one turn of the index loop keeps its invariants |
| EditorAssets.IndexOfDistinct | src/Editor/EditorAssetService.cpp:518-523 | with distinct keys every key maps to its only position |
| EditorAssets.AssetService.constructor | include/Editor/EditorAssetService.h:84-91 | a service with no discovered assets and nothing selected or armed |
| EditorAssets.AssetService.FindAssetByKey | src/Editor/EditorAssetService.cpp:774-787 | a position within the list, found exactly when an entry has that key, and holding that key |
| EditorAssets.AssetService.SelectAssetByKey | src/Editor/EditorAssetService.cpp:427-446 | true exactly when the key is known, and then the selection; otherwise nothing changes |
| EditorAssets.AssetService.ArmPlacementByKey | src/Editor/EditorAssetService.cpp:448-460 | a known key is both selected and armed; an unknown one is NotFound with nothing changed |
| EditorAssets.AssetService.InstantiateAssetByKey | src/Editor/EditorAssetService.cpp:666-689 | NotFound for an unknown key, then NotReady without an asset manager; success only through a delegated instantiation |
| EditorAssets.AssetService.InstantiateArmedAsset | src/Editor/EditorAssetService.cpp:648-664 | NotReady when nothing is armed; otherwise the armed asset is instantiated and the placement cleared only on success |
| EditorAssets.AssetService.RefreshDiscovery | src/Editor/EditorAssetService.cpp:467-540 | NotReady with nothing changed without an asset manager; otherwise the sorted de-duplicated list, its index, and a selection and placement kept only while their asset is still listed |
| MkDocsApi.FindAllExact | tools/GenerateMkDocsApi.py:36-36 | `findall` keeps exactly the children with the tag, in order, and is empty exactly when no child has it |
| MkDocsApi.FindExact | tools/GenerateMkDocsApi.py:39-39 | `find` gives a child with the tag, and nothing exactly when no child has it |
| MkDocsApi.StripShape | tools/GenerateMkDocsApi.py:40-40 | `str.strip()` returns a slice of its input that has whitespace at neither end, having dropped only whitespace |
| MkDocsApi.Strip | tools/GenerateMkDocsApi.py:40-40 | `str.strip()`; StripShape and StripEnds state that it drops leading and trailing whitespace only and leaves none at either end |
| MkDocsApi.Loaded | tools/GenerateMkDocsApi.py:36-43 | one index child yields at most one compound |
| MkDocsApi.IndexCompoundsFrom | tools/GenerateMkDocsApi.py:36-43 | every loaded compound comes from a `compound` element with a non-empty refid, and is named by its stripped name text, or by its refid when the name is missing or empty |
| MkDocsApi.IndexCompoundsSnoc | tools/GenerateMkDocsApi.py:36-43 | the index loop appends what each child contributes, in document order |
| MkDocsApi.DoxygenApiGenerator.constructor | tools/GenerateMkDocsApi.py:19-22 | a new generator holds no compounds |
| MkDocsApi.DoxygenApiGenerator.LoadIndex | tools/GenerateMkDocsApi.py:30-43 | a missing index fails with not-found and keeps the compounds; otherwise the index's compounds are appended |
| MkDocsApi.DoxygenApiGenerator.WriteCompoundPages | tools/GenerateMkDocsApi.py:50-54 | the loop writes exactly the pages of the compound-pages specification |
| MkDocsApi.CompoundPagesExact | tools/GenerateMkDocsApi.py:50-54 | one `<refid>.md` page per compound of kind class, struct, namespace, file, union or concept, in index order |
| MkDocsApi.OfKindsSnoc | tools/GenerateMkDocsApi.py:50-54 | filtering by kind keeps a trailing compound exactly when its kind is selected |
| MkDocsApi.KindGroups | tools/GenerateMkDocsApi.py:50-62 | a page kind falls in exactly one of the namespace, type and file partitions |
| MkDocsApi.OfKinds | tools/GenerateMkDocsApi.py:57-62 | a partition holds only compounds of its kinds |
| MkDocsApi.ByNameWeakOrder | tools/GenerateMkDocsApi.py:57-62 | ordering by name is a strict weak order, as `sorted(key=name)` needs |
| MkDocsApi.PartitionsSorted | tools/GenerateMkDocsApi.py:57-62 | each partition is sorted by name and is a permutation of the compounds of its kinds; together they hold every compound that gets a page |
| MkDocsApi.PartitionSplit | tools/GenerateMkDocsApi.py:57-62 | the three partitions add up to the paged compounds |
| MkDocsApi.PartitionStep | tools/GenerateMkDocsApi.py:57-62 | the partition property holds for every list of compounds |
| MkDocsApi.ItemLines | tools/GenerateMkDocsApi.py:64-68 | one `- [name](refid.md)` line per item, in order |
| MkDocsApi.IndexListLines | tools/GenerateMkDocsApi.py:64-68 | `_None_` stands exactly for an empty partition; otherwise the list has one line per item |
| MkDocsApi.ItemLineCount | tools/GenerateMkDocsApi.py:64-68 | an index line holds no newline of its own when name and refid hold none |
| MkDocsApi.RenderIndexList | tools/GenerateMkDocsApi.py:64-68 | the line-collecting loop gives the partition's list text |
| MkDocsApi.ItemLinesSnoc | tools/GenerateMkDocsApi.py:64-68 | the loop's lines grow by one line per item |
| MkDocsApi.IndexPages | tools/GenerateMkDocsApi.py:56-95 | the overview and the three partition pages, four in all |
| MkDocsApi.DoxygenApiGenerator.WriteIndexes | tools/GenerateMkDocsApi.py:56-95 | writes exactly the four index pages of the loaded compounds |
| MkDocsApi.Run | tools/GenerateMkDocsApi.py:24-28 | a missing index fails and writes nothing; otherwise the compound pages of the loaded compounds followed by the index pages |
| MkDocsApi.RenderCompound | tools/GenerateMkDocsApi.py:97-131 | a missing detail XML gives the `_Unable to locate XML_` page, a missing compounddef the `_Empty compound definition._` page, otherwise the titled page; every page starts with `#` and ends in exactly one newline |
| MkDocsApi.PageText | tools/GenerateMkDocsApi.py:117-131 | the page ends in one newline, starts with `#` and keeps the whole `# title` heading when the title ends in a character that is not whitespace |
| MkDocsApi.PageTitle | tools/GenerateMkDocsApi.py:108-110 | a file page is titled File `name` |
| MkDocsApi.HeadedPage | tools/GenerateMkDocsApi.py:117-131 | stripping the joined page keeps its leading `#` heading |
| MkDocsApi.FallbackTitle | tools/GenerateMkDocsApi.py:347-367 | an unknown section kind keeps its length, with a space exactly where it had a dash or a space |
| MkDocsApi.FallbackTitleWords | tools/GenerateMkDocsApi.py:367-367 | title-casing capitalises each word's first letter and lower-cases the letters after it |
| MkDocsApi.TitleFromAt | tools/GenerateMkDocsApi.py:367-367 | in a title-cased text a letter after a letter is lower case, any other letter upper case |
| MkDocsApi.TableTitle | tools/GenerateMkDocsApi.py:348-366 | a kind has a title exactly when the table lists it, and then the listed one |
| MkDocsApi.SectionTitle | tools/GenerateMkDocsApi.py:347-367 | a known kind gets its table title, any other kind the title-cased fallback |
| MkDocsApi.EmptySectionsVanish | tools/GenerateMkDocsApi.py:143-155 | sections whose members all render empty leave no heading |
| MkDocsApi.MemberCards | tools/GenerateMkDocsApi.py:157-165 | one card per member, enums rendered as enums |
| MkDocsApi.WrapCard | tools/GenerateMkDocsApi.py:167-176 | empty content gives no card, and only empty content |
| MkDocsApi.EnumValueLines | tools/GenerateMkDocsApi.py:189-197 | at most one line per enum value |
| MkDocsApi.EnumValueLinesExact | tools/GenerateMkDocsApi.py:189-197 | an enum value gets a line exactly when its name is non-empty, in order, with `: brief` only for a non-empty brief |
| MkDocsApi.EnumWithoutValues | tools/GenerateMkDocsApi.py:178-203 | an enum without named values and descriptions has no Values block |
| MkDocsApi.Signature | tools/GenerateMkDocsApi.py:206-211 | definition plus arguments when there are arguments, else the definition, else the name |
| MkDocsApi.Block | tools/GenerateMkDocsApi.py:226-238 | a titled block appears exactly when it has items |
| MkDocsApi.ParameterLines | tools/GenerateMkDocsApi.py:229-229 | one line per parameter |
| MkDocsApi.NoteLines | tools/GenerateMkDocsApi.py:237-237 | one line per note |
| MkDocsApi.MemberCardHeading | tools/GenerateMkDocsApi.py:205-239 | a member card opens the card markup, then the signature heading |
| MkDocsApi.HeadedCard | tools/GenerateMkDocsApi.py:239-239 | stripping twice keeps a heading with no whitespace at either end |
| MkDocsApi.Entries | tools/GenerateMkDocsApi.py:245-251 | each parameter item yields its names and its description, in order |
| MkDocsApi.Assign | tools/GenerateMkDocsApi.py:252-253 | every listed name maps to the description; other names keep their entries |
| MkDocsApi.AssignAllUntouched | tools/GenerateMkDocsApi.py:244-253 | a name no entry mentions keeps its old entry, or stays absent |
| MkDocsApi.AssignAllLastWins | tools/GenerateMkDocsApi.py:244-253 | a name maps to the description of the last entry that mentions it |
| MkDocsApi.DescriptionsUnnamed | tools/GenerateMkDocsApi.py:242-253 | a name no parameter item names gets no description |
| MkDocsApi.DescriptionsLastWins | tools/GenerateMkDocsApi.py:242-253 | a name gets the description of the last parameter item naming it |
| MkDocsApi.ParamPairsExact | tools/GenerateMkDocsApi.py:255-261 | the pairs follow the named params in order, each with its dictionary entry or the empty string |
| MkDocsApi.NonEmptyExact | tools/GenerateMkDocsApi.py:296-296 | the filter keeps exactly the non-empty paragraphs, in order |
| MkDocsApi.NoBlocksNoDescription | tools/GenerateMkDocsApi.py:281-296 | a description with no block of a known kind renders as nothing |
| MkDocsApi.PlainInlineIsText | tools/GenerateMkDocsApi.py:298-329 | without markup tags, inline rendering reproduces the text in document order, as `itertext()` does |
| MkDocsApi.PlainChildrenAreText | tools/GenerateMkDocsApi.py:302-328 | the children loop without markup concatenates the children's text and tails |
| MkDocsApi.CodeLines | tools/GenerateMkDocsApi.py:333-335 | one code line per `codeline` element |
| MkDocsApi.ListItemLines | tools/GenerateMkDocsApi.py:339-345 | one line per list item |
| MkDocsApi.ListLinesShape | tools/GenerateMkDocsApi.py:339-345 | the list loop numbers the `listitem` children consecutively |
| MkDocsApi.RenderListShape | tools/GenerateMkDocsApi.py:339-345 | `_RenderList` joins by newlines one line per `listitem` child, numbered from 1 when ordered and dashed otherwise |
| MkDocsApi.RenderInline | tools/GenerateMkDocsApi.py:298-329 | the element text, then each child rendered and followed by its tail; PlainInlineIsText states that without markup this is `itertext()` |
| MkDocsApi.RenderChild | tools/GenerateMkDocsApi.py:302-328 | one child by its tag; PlainChildrenAreText states that children without markup contribute their text and tails in document order |
| MkDocsApi.RenderList | tools/GenerateMkDocsApi.py:339-345 | the `listitem` lines joined by newlines, as RenderListShape states: numbered from 1 when ordered, dashed otherwise |
| MkDocsApi.RenderProgramlisting | tools/GenerateMkDocsApi.py:331-337 | a cpp fence around the right-stripped code lines, one per `codeline` element as CodeLines states |
| MkDocsApi.RenderDescription | tools/GenerateMkDocsApi.py:281-296 | the non-empty rendered blocks joined by blank lines; NonEmptyExact states the filter and NoBlocksNoDescription that no known block gives nothing |
| MkDocsApi.RenderMember | tools/GenerateMkDocsApi.py:205-239 | the member card; MemberCardHeading states that it opens the card markup and then the signature heading |
| MkDocsApi.RenderEnum | tools/GenerateMkDocsApi.py:178-203 | the enum card; EnumValueLinesExact states its value lines and EnumWithoutValues that an enum without values has no Values block |
| MkDocsApi.RenderMembers | tools/GenerateMkDocsApi.py:157-165 | the non-empty cards joined by newlines; MemberCards states one card per member and NonEmptyExact the filter |
| MkDocsApi.RenderSections | tools/GenerateMkDocsApi.py:143-155 | a titled block per section with rendered members; EmptySectionsVanish states that sections whose members render empty leave nothing |
| MkDocsApi.RenderInner | tools/GenerateMkDocsApi.py:133-141 | the inner-namespace lines, then the inner-type lines, joined by newlines; InnerLinesExact states which lines each list gives |
| MkDocsApi.InnerLinesExact | tools/GenerateMkDocsApi.py:133-141 | every inner element with a non-blank stripped name gets its `- **Label:** name` line, every line comes from such an element, and there are at most as many lines as elements |
| MkDocsApi.ExtractParameters | tools/GenerateMkDocsApi.py:241-261 | one pair per named `param`; ParamPairsExact states the pairs and DescriptionsLastWins and DescriptionsUnnamed which description each name gets |
| MkDocsApi.ExtractReturn | tools/GenerateMkDocsApi.py:263-268 | nothing without a detailed description, otherwise the rendering of the first return section below it, which FirstSectExact characterises |
| MkDocsApi.FirstSectExact | tools/GenerateMkDocsApi.py:267-267 | the `.//simplesect[@kind=...]` search gives the first matching descendant in document order, and nothing exactly when none matches |
| MkDocsApi.ExtractNotes | tools/GenerateMkDocsApi.py:270-279 | the non-empty renderings of the note sections below the detailed description, in document order, as NonEmptyExact states for the filter |

## Left out

- ComponentStorage.Storage.ResolveDenseIndex: this is a pure lookup. The source's non-const overload (include/ComponentStorage.h:656-670) goes on to call RehydrateOwnerRuntimeIdentity (include/ComponentStorage.h:737-786) when the sparse lookup misses but the UUID map hits. That call rewrites four things: the entry's owner runtime key, its cached owner node, the sparse owner index and the caller's handle. None of these writes is modelled, so after ComponentStorage.Storage.Remove through such a handle, the model's owner keys and sparse index can differ from the source's.
- ComponentStorage.Storage.EndFrame: component OnCreate/OnDestroy hooks are recorded only as the ordered list of destroy calls. Their effects are not modelled, and neither is the storage's Clear.
- DenseRuntime.Storage.CreateWithId: when the free list is empty and the slot array already holds 2^32 - 1 slots, the model returns InternalError. The source has no such branch: its 32-bit slot index would wrap. Slot indices are naturals elsewhere.
- DenseRuntime.Storage.Destroy: per-type OnCreate/OnDestroy hooks of the dense runtime are not modelled. An object constructor that throws is the parameter `obj == None`.
- Handles.Borrowed: returns the refreshed handle to the caller. It does not write the handle's mutable runtime-key cache fields in place.
- ObjectRegistry.Registry.ResolveFastOrFallback: fallback miss counts are unbounded naturals. The source counter (include/ObjectRegistry.h:370-372) is a fixed-width uint64 and would wrap after 2^64 misses. Where the storage resolves a token, the model takes a boolean parameter in place of the storage lookup.
- ObjectRegistry.ShouldWarn: the miss count is an unbounded natural and `&` is defined on naturals bit by bit. The source's counter is a uint64, so the two agree for every count below 2^64.
- ObjectPool.Pool.IsValid: modelled as "Borrowed succeeds". The source body (include/ObjectPool.h:179) reads a member `m_object` that the class does not declare.
- WorldNodes.NodeRuntime.AttachChild: the InternalError "hierarchy state missing" branch is left out. It cannot be reached while the runtime's invariant holds.
- WorldNodes.NodeRuntime.DetachChild: the InternalError "hierarchy state missing" branch is left out, for the same reason.
- WorldNodes.NodeRuntime.DestroyNode: the InternalError branches are left out. They cover a missing hierarchy entry after a successful resolve and a failing node-storage Destroy, and neither can be reached while the invariant holds.
- WorldNodes.NodeRuntime.CreateNodeWithId: the InvalidIndex branch for a freshly created handle is left out, since a fresh handle always resolves. The runtime's per-tick Tick/FixedTick/LateTick dispatch loops, RemoveAllComponentsOnNode, DestroyRuntimeNode and ResolveComponentRaw are not modelled: they dispatch into component code.
- WorldComponents.Attachments.AddComponentWithId: only the UUID-keyed form is modelled. The typed AddComponent/Component/RemoveComponent overloads (include/WorldEcsRuntime.h:1637-1771) and lookup by storage token are not, and creation with a random UUID takes the UUID as a parameter.
- WorldTicks.Schedule.RegisterTickEntry: the registration sequence counter is an unbounded natural. The source's counter is a uint64.
- NodeGraphs.NodeGraph.MarkComponent: each 64-bit mask word is a sequence of 64 booleans rather than a `uint64`. Setting, clearing and testing a bit are the same operations.
- NodeGraphs.NodeGraph.CreateNodeOfType: the InternalError branches are left out. "Failed to create node" fires when the pool cannot borrow the handle it has just created, and "Node type mismatch" when the constructed instance is not a node. Neither can happen once the pool and the type check have succeeded. The pool's runtime key, the reflection IsA verdict and the constructor's result are parameters.
- NodeGraphs.NodeGraph.EvaluateRelevance: each node's relevance verdict is a parameter. The relevance policies themselves are not modelled.
- NetRpc.NetRpcBridge.HandleRequest: argument decoding, invocation and return-value encoding are outcome parameters. NetRpcBridge Bind, the Call overloads and the transport send are not modelled. NetRpcBridge::FindRpcMethod (src/NetRpc.cpp:535-578) is the same lookup as Rpc.FindRpcMethod.
- NetReplication.NetReplicationBridge.GatherEntities: MakeNetTypeId comes from reflection and is a parameter. The entity id function is passed in, and GatherEntities passes MakeEntityId. Interest management and scoring (Interested/Score) are not modelled. Neither are the OnSpawn/OnUpdate/OnSnapshot/OnDespawn callbacks (src/NetReplication.cpp:743-785): they act on the transport and on reflected fields.
- NetReplication.NetReplicationBridge.ApplyPayload: the factories' and the field codec's verdicts are parameters.
- Physics.PhysicsSystem.Step: the backend's Simulate/FetchResults outcomes and its events are parameters. Callbacks are opaque ids, and listener tokens are naturals. The floating-point delta is checked for sign only, and the step plans the listener calls rather than making them.
- Variants.FromValue: ownership is a flag. The difference between the source's unique and shared pointers is not modelled.
- EditorLayout.ContentBrowser.RebuildContentBrowserEntries: the entries are sorted with a stable insertion sort, where the source uses std::sort. The comparator is proved a strict weak order, but the relative order of entries that compare equal is not modelled. The rest of EditorLayout.cpp builds UI widgets and is not modelled: only the content-browser rebuild, filter and breadcrumb logic are.
- AssetRefs.EnumerateCompatibleAssets: the same stable sort stands in for std::sort. Loading assets from the asset manager is a `Listed` predicate parameter.
- EditorAssets.AssetService.RefreshDiscovery: the same stable sort stands in for std::sort. The asset manager's listing is a parameter, and the status message text is not modelled.
- PropertyPanel.ParseSigned: floating-point, vector, quaternion, color, UUID and component-list parsing and number formatting (ParseDouble, ParseVec*, ParseQuat, ParseColor, ParseUuid, FormatNumber, ParseComponentList) are not modelled. Only the integer, boolean and enum paths are.
- PropertyPanel.ReadUnsignedBits: the source copies the value's bytes with memcpy, so its byte order is the host's. The model fixes it as little-endian. On a big-endian host the source's bytes would be in the other order, which is not modelled.
- PropertyPanel.WriteUnsignedBits: the same little-endian byte order stands in for the host's memcpy layout.
- GameRuntime.ParseBooleanEnvValue: the other environment readers (ParseUnsignedEnv) and the reading of the environment itself are not modelled.
- EditorCore.PieService.StartSession: the call to Runtime.StopGameplayHost() (src/Editor/EditorCoreServices.cpp:755) is not modelled. Gameplay-host teardown belongs to the runtime, whose code is not part of this model.
- EditorCore.PieService.StopSession: the call to Runtime.StopGameplayHost() (src/Editor/EditorCoreServices.cpp:842) is not modelled, for the same reason.
- EditorCore.ExecuteHierarchyAction: selection updates (ApplySelection) and the picking and transform services are not modelled.
- ServiceHost.InitEffect: this omits the OnLevelLoaded and OnLocalPlayerAdded calls that follow each successful Initialize while the host is initialised and a world exists (src/GameplayHost.cpp:1169-1181). They call into service code that is not part of this model.
- ServiceHost.ServiceRegistry.InitializeServices: the same OnLevelLoaded/OnLocalPlayerAdded calls are omitted.
- ServiceHost.RebuildIndex: follows GameplayHost, whose type index keeps the last slot for a type. GameEditor's RebuildServiceIndexByType uses emplace, which keeps the first. The two agree whenever the registered types are distinct, as registration ensures.
- Gameplay.GameplayHost.RefreshObservedConnectionState: network request policies and the Notify* service callbacks are not modelled.
- Gameplay.EnsurePlayerHasPossession: the game mode's, the game's and the services' SelectInitialPossessionTarget answers are parameters (PossessionSources), and so is the check that a handle borrows a node of the player's world. The game mode is asked only on a server, and only initialised services in start order are asked; the caller supplies their answers accordingly. The pool at possession time is a parameter.
- Gameplay.CreateLocalPlayer: the world's CreateNode outcome is the parameter `created`. The InternalError "Created local-player node type mismatch" branch, taken when the created node is not a LocalPlayer, is part of that parameter rather than a branch of its own.
- Gameplay.JoinPlayer: the `dynamic_cast` to LocalPlayer before the possession step always succeeds in the model, since players are LocalPlayer records; the source skips the step when the cast fails.
- UiSystem.UISystem.CreateContext: six fields of the source are grouped into one field `contexts: Registry`: the context nodes, the pointer-to-id index, the two viewport maps, and the active and capture context ids. The theme-hash cache is not modelled. Render packets, input routing beyond the pointer target and screen rectangles are not modelled.
- UiSystem.UISystem.Initialize: the locking of the source's mutexes is dropped everywhere in the model. Each operation is one atomic step.
- MkDocsApi.Run: output-directory preparation (_PrepareOutput) and file writes are not modelled. Pages are returned as (path, content) pairs, and the parsed XML is an input.
- MkDocsApi.TitleCase: ASCII letters only. Python's `str.title()` is Unicode-aware and can change the length of a string ('ß' becomes 'Ss'); doxygen section kinds are ASCII, so the model does not follow it there.
- MkDocsApi.RenderCompound: an `ElementTree.ParseError` on a malformed compound XML file, raised after the output directory has been prepared, is not modelled; detail XML files are given already parsed.
