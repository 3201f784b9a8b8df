# Blenvy material resolution, modelled in Dafny

This project models the material-resolution engine of Blenvy's blueprint
support (`crates/blenvy/src/blueprints/materials.rs`). An entity exported
from Blender carries `MaterialInfos`: an ordered list of `(name, path)`
references, where position `i` stands for the entity's `i`-th child. Two
Bevy systems resolve these references.

- `load_material_gltfs` (dispatch) runs on an entity that has neither
  `MaterialProcessing` nor `MaterialProcessed`. For each reference it builds
  the key `path#name`. A key found in the process-wide materials cache
  (`BlenvyConfig.materials_cache`) gives `Ok(material)`. Any other key loads
  the glTF file at `path` and records `Err(handle)`. The index map is then
  attached as `MaterialProcessing`.
- `inject_materials` (reconcile) runs on an entity in processing that has a
  `Children` component. It flips every `Err` entry whose file is now
  available and names the material to `Ok`, and writes that material into
  the cache under the entry's key. While any entry is still `Err`, the
  entity waits for a later tick. Once all entries are `Ok`, the child at
  position `i` gets the material of entry `i` as its `MeshMaterial3d`, but
  only if that child has `Parent`, `Mesh3d` and a `MeshMaterial3d` already.
  Then `MaterialProcessing` is replaced by `MaterialProcessed`.

## Files and modules

- `material_state.dfy`, module `MaterialState`: the values. These are
  references, index-map entries (`Slot` = `Ok(material)` | `Err(gltf handle)`),
  the cache, the glTF store, and the three phases `Untouched`,
  `Processing(map)` and `Processed`. The module also defines the key
  `FullPath` and `Loaded`.
- `dispatch.dfy`, module `Dispatch`: `load_material_gltfs` for one entity.
  It holds the loop `BuildMaterials`, its specification `Dispatched` and
  `DispatchPhase`, and lemmas about the loads issued.
- `reconcile.dfy`, module `Reconcile`: the advancing loop `Advance` with its
  specification `Advanced`/`CacheAdvanced`, the positional injection rule,
  `ReconcilePhase`, and lemmas about them.
- `lifecycle.dfy`, module `Lifecycle`: one entity's phase over any
  interleaving of the two systems (`Run`). Each reconcile run says whether
  the entity then has a `Children` component, since one may be added on any
  tick. Lemmas here cover exactly-once finalisation, at-most-once dispatch,
  persistence of resolved entries, stalls on a missing material, and waiting
  while there is no `Children` component.
- `systems.dfy`, module `Systems`: the world state as classes. `Entity` has
  a `phase` field, `Child` has a `meshMaterial` field, and `BlenvyConfig`
  has a `materialsCache` field. The two systems are methods that loop over
  the set of entities and update those fields.

Host services are inputs:
- `AssetServer::load` is the parameter `handleOf: string -> GltfHandle`,
  since Bevy hands out one handle per asset path. The paths a dispatch
  loads are returned as a list.
- `Assets<Gltf>` is a `GltfStore`, a map from handle to the file's
  `named_materials`. A handle whose file is still loading is absent from it.
- Handles and materials are opaque ids.
- Bevy iterates a `HashMap` and a query in no fixed order. The loops
  therefore pick their next index or entity with `:|`, so every proof holds
  for every order.

Some behaviours of the code are easy to miss. The model follows the code:
- Reconcile also requires a `Children` component. An entity with
  `MaterialInfos` but no `Children` is dispatched, then stays in processing,
  with its pending files unpolled, for as long as it has no `Children`
  component (`ChildlessEntityWaits`).
- A child's position is counted among all children. Qualification (which
  includes `Parent`) is checked only on the child at that position.
- An entity whose keys are all cached enters processing with a fully
  loaded map. It is finished by the next reconcile that sees a `Children`
  component, not by dispatch.
- The key is not injective. For example, the path `a#` with the name `b`
  and the path `a` with the name `#b` share the key `a##b`
  (`KeyCollision`). With such references the cache value depends on map
  order, so `CacheAdvanced` states which values are possible.
  `FullPathInjective` and `ConsistentWhenKeysUnambiguous` show that the
  value is unique when paths contain no `#`.

## Model

| member | source | states |
|---|---|---|
| `MaterialState.Loaded` | crates/blenvy/src/blueprints/materials.rs:22-25 | An empty index map counts as loaded |
| `MaterialState.LoadedIffNoPending` | crates/blenvy/src/blueprints/materials.rs:22-25 | Loaded holds exactly when no index is pending, that is, exactly when the resolved indices are all the indices |
| `MaterialState.FullPathLayout` | crates/blenvy/src/blueprints/materials.rs:50 | The key is the path, then '#' at the path's length, then the name, so its length is the two lengths plus one |
| `MaterialState.FullPathInjective` | crates/blenvy/src/blueprints/materials.rs:50 | If neither path contains '#', two references with the same `path#name` key are the same reference |
| `MaterialState.KeyCollision` | crates/blenvy/src/blueprints/materials.rs:50 | Two distinct references can share one key when a path contains '#' |
| `Dispatch.DispatchEntry` | crates/blenvy/src/blueprints/materials.rs:50-65 | One reference's entry is `Ok` exactly when its key is cached, and then holds the cached material. Otherwise it is `Err` of the handle loaded from the reference's own path |
| `Dispatch.MissedPaths` | crates/blenvy/src/blueprints/materials.rs:62-64 | The paths loaded for a reference list are never more than the references |
| `Dispatch.Dispatched` | crates/blenvy/src/blueprints/materials.rs:46-66 | The attached map has one entry per reference index `0..len-1`. An entry is `Ok` exactly when its key is cached, and then it holds the cached material. Every `Err` entry waits on the handle loaded from its own path |
| `Dispatch.DispatchPhase` | crates/blenvy/src/blueprints/materials.rs:34-70 | An entity with either marker is left unchanged. An untouched entity enters processing with an entry per reference |
| `Dispatch.BuildMaterials` | crates/blenvy/src/blueprints/materials.rs:47-66 | The loop maps each index whose key is cached to `Ok(cached material)` and each other index to `Err(handle of its path)`. The loads it issues are exactly the missed paths, in reference order |
| `Dispatch.AllCachedLoadsNothing` | crates/blenvy/src/blueprints/materials.rs:52-61 | When every key is cached, no load is issued and the attached map is already loaded |
| `Dispatch.MissedPathsExact` | crates/blenvy/src/blueprints/materials.rs:62-65 | A path is loaded exactly when some reference with that path misses the cache |
| `Dispatch.LoadsMatchPending` | crates/blenvy/src/blueprints/materials.rs:62-64 | The number of loads issued equals the number of pending entries attached |
| `Reconcile.Resolution` | crates/blenvy/src/blueprints/materials.rs:95-100 | A pending entry resolves exactly when its file is available and names the reference's material, and it resolves to that material. An `Ok` entry never resolves again |
| `Reconcile.AdvanceSlot` | crates/blenvy/src/blueprints/materials.rs:95-107 | An `Ok` entry is kept. An entry changes exactly when it resolves, and then becomes `Ok` of the resolved material |
| `Reconcile.Advanced` | crates/blenvy/src/blueprints/materials.rs:92-111 | After advancing, the map still has one entry per reference |
| `Reconcile.Advance` | crates/blenvy/src/blueprints/materials.rs:93-111 | For every visiting order of the map, the loop yields the advanced map. The cache gains exactly the keys of the entries that resolve, each holding a material resolved under that key, and keeps every other value |
| `Reconcile.AdvanceChangesOnlyAvailable` | crates/blenvy/src/blueprints/materials.rs:95-107 | An entry changes exactly when it is pending and its file is available and names the material. It then becomes `Ok` of that material |
| `Reconcile.AdvanceMonotone` | crates/blenvy/src/blueprints/materials.rs:93-111 | `Ok` entries keep their material, and the set and count of resolved indices never shrink |
| `Reconcile.AdvanceCompletes` | crates/blenvy/src/blueprints/materials.rs:94-115 | When every pending file is available and names its material, one advance makes the map loaded |
| `Reconcile.AdvanceLoadedIdentity` | crates/blenvy/src/blueprints/materials.rs:92-116 | Skipping the advance for a loaded map is the same as advancing it: the map is unchanged and no key is written |
| `Reconcile.AdvancePreservesHandles` | crates/blenvy/src/blueprints/materials.rs:94-110 | Entries still pending keep waiting on the file of their own path |
| `Reconcile.ReconciledKeyHitsDispatch` | crates/blenvy/src/blueprints/materials.rs:101-105 | The key reconcile writes is the key dispatch looks up. A later dispatch of a resolved reference finds it cached, loads nothing and records `Ok` |
| `Reconcile.CacheHoldsResolution` | crates/blenvy/src/blueprints/materials.rs:101-106 | When resolutions under one key agree, the cache holds under each resolved key the material resolved for it |
| `Reconcile.ConsistentWhenKeysUnambiguous` | crates/blenvy/src/blueprints/materials.rs:101-105 | If pending entries wait on their own path's file and no path contains '#', resolutions under one key agree |
| `Reconcile.InjectedMaterial` | crates/blenvy/src/blueprints/materials.rs:119-136 | A child's material changes only if it qualifies and its position has an `Ok` entry. In that case it becomes that entry's material. Qualifying is `Qualifies`, the filter of lines 80-87: the child has `Parent`, `Mesh3d` and a `MeshMaterial3d` already |
| `Reconcile.ChildAfter` | crates/blenvy/src/blueprints/materials.rs:91-137 | A child keeps its material unless its entity is processing with `Children`, and unless the child qualifies |
| `Reconcile.ReconcilePhase` | crates/blenvy/src/blueprints/materials.rs:91-141 | Only a processing entity with `Children` is touched. It never returns to untouched. Such an entity finishes exactly when its advanced map is loaded, and otherwise stays in processing with the advanced map |
| `Reconcile.ReconcileFinishesWhenAvailable` | crates/blenvy/src/blueprints/materials.rs:92-116 | A processing entity with `Children` whose pending files are all available and name their materials is finished by one reconcile |
| `Reconcile.InjectionIsPositional` | crates/blenvy/src/blueprints/materials.rs:119-137 | A child changes only in the tick that finishes its entity, only if it qualifies, and only if its position has an entry. A qualifying child at position `i` then receives entry `i`'s material |
| `Lifecycle.Run` | crates/blenvy/src/blueprints/materials.rs:32-143 | Every phase reached by any interleaving of the two systems keeps one entry per reference |
| `Lifecycle.ProcessedIsFinal` | crates/blenvy/src/blueprints/materials.rs:36-78 | A processed entity stays processed: it is never dispatched or finalised again |
| `Lifecycle.FinalisedAtMostOnce` | crates/blenvy/src/blueprints/materials.rs:138-141 | In any run the entity is finalised at most once, and never if it started processed |
| `Lifecycle.DispatchedAtMostOnce` | crates/blenvy/src/blueprints/materials.rs:34-41 | `MaterialProcessing` is attached at most once, and only to an untouched entity |
| `Lifecycle.NeverUntouchedAgain` | crates/blenvy/src/blueprints/materials.rs:34-41 | An entity that has left the untouched phase never returns to it and is never dispatched again |
| `Lifecycle.ResolutionsPersist` | crates/blenvy/src/blueprints/materials.rs:92-111 | An `Ok` entry keeps its material for as long as the entity stays in processing |
| `Lifecycle.MissingMaterialStalls` | crates/blenvy/src/blueprints/materials.rs:96-115 | An entry whose file never appears with its material stays pending, and the entity stays in processing |
| `Lifecycle.ChildlessEntityWaits` | crates/blenvy/src/blueprints/materials.rs:76-79 | While no reconcile run sees a `Children` component, a processing entity keeps its index map unchanged |
| `Lifecycle.TwoReferencesScenario` | crates/blenvy/src/blueprints/materials.rs:119-136 | Two uncached references into one file: after the file arrives, child 0 receives the first material and child 1 the second. A child past the list and a non-qualifying child are untouched |
| `Systems.LoadMaterialGltfs` | crates/blenvy/src/blueprints/materials.rs:32-72 | Each entity's phase becomes `DispatchPhase` of its old phase and the unchanged cache. A path is loaded exactly when it is a missed path of an entity that was untouched |
| `Systems.InjectChildren` | crates/blenvy/src/blueprints/materials.rs:119-137 | For every visiting order, each child receives the material at its own position if it qualifies. All other children are unchanged |
| `Systems.ReconcileEntity` | crates/blenvy/src/blueprints/materials.rs:91-141 | One entity's new phase is `ReconcilePhase`. The cache changes as `CacheAdvanced` says, and each child's material follows `ChildAfter` |
| `Systems.VisitEntity` | crates/blenvy/src/blueprints/materials.rs:76-79 | An entity the query does not match is left unchanged. A matched one is reconciled. The cache gains exactly that entity's resolved keys, and each resolved key holds a material resolved under it (`CacheAdvanced`). Every other key keeps its value |
| `Systems.InjectMaterials` | crates/blenvy/src/blueprints/materials.rs:74-143 | Every entity's phase and children follow `ReconcilePhase` and `ChildAfter`. The cache keeps all its keys and gains every key resolved this tick. It gains no other key, and a key that no entity resolves keeps its value |

## Left out

- crates/blenvy/src/components/mod.rs is not part of this model. It only registers a plugin, a type and a system set and has no logic of its own.
- Bevy's ECS machinery is replaced by explicit state: `Query`, `Commands`, `Res`/`ResMut`, `Children`/`Parent` and the `Reflect` derives. Deferred commands are applied at once. The per-entity updates touch disjoint state apart from the cache, so the end state is the same.
- Asynchronous asset loading is an input, not modelled: a file's arrival is whatever the `GltfStore` passed to a run says.
- Which order the two systems run in within a tick, and when commands are flushed, is left open. `Lifecycle` proves its properties for any interleaving.
- Logging (`debug!`, `info!`), rendering, glTF parsing and the contents of `StandardMaterial` are not modelled. Materials are opaque ids.
- The two `expect` calls (lines 60 and 122) and the two index reads (lines 97 and 123) are not modelled as panics. The cache read at lines 57-60 follows a successful `contains_key`. The `Ok` read at lines 120-122 runs only once the map is loaded, which is why `InjectChildren` requires `Loaded`. The index reads are in range because dispatch builds an entry per reference.
- `MaterialInfos` is treated as never changing after dispatch. A change to it while the entity is in processing is not modelled.
- Systems.LoadMaterialGltfs: its contract says which paths are loaded, not how many times each is loaded. The per-entity count is stated by `Dispatch.BuildMaterials` and `Dispatch.LoadsMatchPending`.
- Systems.InjectMaterials: its contract does not say which material a key ends up holding when it is resolved this tick. When several entities resolve one key, the last one visited wins, in query order. Each entity's writes are stated by `Systems.ReconcileEntity` through `CacheAdvanced`.
- Systems.Entity fixes its `Children` component and its list of children when it is made, so the `Systems` methods describe one tick each. A `Children` component added between ticks is covered in `Lifecycle`, where each reconcile run carries its own `hasChildren`.
