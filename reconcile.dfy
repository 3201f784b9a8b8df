/**
 * The second system, `inject_materials`, on one entity: advance the pending
 * entries whose glTF file has become available and names the material,
 * writing each into the materials cache; stay in processing while anything
 * is pending; otherwise bind the material at index i to the i-th child when
 * that child qualifies, and finish.
 */
module Reconcile {
  import opened MaterialState
  import opened Dispatch

  /**
   * The material a pending entry resolves to this tick: its file is
   * available and contains a material of the reference's name.
   */
  function Resolution(info: MaterialInfo, slot: Slot, gltfs: GltfStore): (r: Option<Material>)
    ensures r.Some? <==> slot.Err? && slot.gltf in gltfs && info.name in gltfs[slot.gltf]
    ensures r.Some? ==> r.value == gltfs[slot.gltf][info.name]
  {
    match slot
    case Ok(_) => None
    case Err(handle) =>
      if handle in gltfs && info.name in gltfs[handle] then Some(gltfs[handle][info.name]) else None
  }

  /** An entry after one advance: `Ok` entries stay, a pending one flips to `Ok` once it resolves. */
  function AdvanceSlot(info: MaterialInfo, slot: Slot, gltfs: GltfStore): (r: Slot)
    ensures slot.Ok? ==> r == slot
    ensures r != slot <==> Resolution(info, slot, gltfs).Some?
    ensures Resolution(info, slot, gltfs).Some? ==> r == Ok(Resolution(info, slot, gltfs).value)
  {
    match Resolution(info, slot, gltfs)
    case Some(material) => Ok(material)
    case None => slot
  }

  /** The index map after one advance. */
  function Advanced(infos: seq<MaterialInfo>, materials: map<nat, Slot>, gltfs: GltfStore)
    : (r: map<nat, Slot>)
    requires Indexed(materials, |infos|)
    ensures Indexed(r, |infos|)
  {
    map i | i in materials :: AdvanceSlot(infos[i], materials[i], gltfs)
  }

  /** The keys written to the cache by advancing the indices of `among`. */
  function ResolvedKeys(infos: seq<MaterialInfo>, materials: map<nat, Slot>, gltfs: GltfStore,
                        among: set<nat>): set<string>
    requires Indexed(materials, |infos|) && among <= materials.Keys
  {
    set i | i in among && Resolution(infos[i], materials[i], gltfs).Some? :: FullPath(infos[i])
  }

  /** The cache's value at `key` is what some index of `among` resolved to under that key. */
  ghost predicate WrittenFrom(cache: Cache, key: string, infos: seq<MaterialInfo>,
                              materials: map<nat, Slot>, gltfs: GltfStore, among: set<nat>)
    requires Indexed(materials, |infos|) && among <= materials.Keys
  {
    && key in cache
    && exists i :: i in among && FullPath(infos[i]) == key
                   && Resolution(infos[i], materials[i], gltfs) == Some(cache[key])
  }

  /**
   * What one advance does to the cache, whatever order the index map is
   * visited in: it gains the key of every entry that resolves, each holding
   * a material resolved under that key, and every other key keeps its value.
   */
  ghost predicate CacheAdvanced(before: Cache, after: Cache, infos: seq<MaterialInfo>,
                                materials: map<nat, Slot>, gltfs: GltfStore)
    requires Indexed(materials, |infos|)
  {
    var written := ResolvedKeys(infos, materials, gltfs, materials.Keys);
    && after.Keys == before.Keys + written
    && (forall key :: key in before && key !in written ==> after[key] == before[key])
    && (forall key :: key in written ==> WrittenFrom(after, key, infos, materials, gltfs, materials.Keys))
  }

  /**
   * All entries that resolve under one key resolve to the same material, so
   * the order of the cache writes does not matter.
   */
  ghost predicate ConsistentResolutions(infos: seq<MaterialInfo>, materials: map<nat, Slot>,
                                        gltfs: GltfStore)
    requires Indexed(materials, |infos|)
  {
    forall i, j ::
      i in materials && j in materials && FullPath(infos[i]) == FullPath(infos[j])
      && Resolution(infos[i], materials[i], gltfs).Some? && Resolution(infos[j], materials[j], gltfs).Some?
      ==> Resolution(infos[i], materials[i], gltfs) == Resolution(infos[j], materials[j], gltfs)
  }

  /**
   * The state of the advancing loop once the indices of `done` have been
   * visited: those entries are advanced in the copy of the map, and the
   * cache has gained their keys as `CacheAdvanced` describes.
   */
  ghost predicate AdvancedAmong(infos: seq<MaterialInfo>, materials: map<nat, Slot>, gltfs: GltfStore,
                                cache: Cache, done: set<nat>, next: map<nat, Slot>, cache': Cache)
    requires Indexed(materials, |infos|) && done <= materials.Keys
  {
    var written := ResolvedKeys(infos, materials, gltfs, done);
    && next.Keys == materials.Keys
    && (forall i :: i in materials ==>
          next[i] == if i in done then AdvanceSlot(infos[i], materials[i], gltfs) else materials[i])
    && cache'.Keys == cache.Keys + written
    && (forall key :: key in cache && key !in written ==> cache'[key] == cache[key])
    && (forall key :: key in written ==> WrittenFrom(cache', key, infos, materials, gltfs, done))
  }

  /**
   * The advancing loop of `inject_materials`: the map is visited in an
   * unspecified order, as a `HashMap` is; each pending entry whose file is
   * available and names the material is flipped to `Ok` in a copy of the map
   * and written into the cache under its key.
   */
  method Advance(infos: seq<MaterialInfo>, materials: map<nat, Slot>, cache: Cache, gltfs: GltfStore)
    returns (next: map<nat, Slot>, cache': Cache)
    requires Indexed(materials, |infos|)
    ensures next == Advanced(infos, materials, gltfs)
    ensures CacheAdvanced(cache, cache', infos, materials, gltfs)
  {
    next, cache' := materials, cache;
    var todo := materials.Keys;
    while todo != {}
      invariant todo <= materials.Keys
      invariant AdvancedAmong(infos, materials, gltfs, cache, materials.Keys - todo, next, cache')
      decreases todo
    {
      var index :| index in todo;
      ghost var done, next0, cache0 := materials.Keys - todo, next, cache';
      if materials[index].Err? {
        var handle := materials[index].gltf;
        if handle in gltfs {
          var info := infos[index];
          if info.name in gltfs[handle] {
            var material := gltfs[handle][info.name];
            cache' := cache'[FullPath(info) := material];
            next := next[index := Ok(material)];
          }
        }
      }
      AdvanceStep(infos, materials, gltfs, cache, done, index, next0, cache0, next, cache');
      todo := todo - {index};
      assert materials.Keys - todo == done + {index};
    }
    assert materials.Keys - todo == materials.Keys;
  }

  /** Visiting one more index keeps `AdvancedAmong`. */
  lemma AdvanceStep(infos: seq<MaterialInfo>, materials: map<nat, Slot>, gltfs: GltfStore, cache: Cache,
                    done: set<nat>, index: nat, next: map<nat, Slot>, cache': Cache,
                    next2: map<nat, Slot>, cache2: Cache)
    requires Indexed(materials, |infos|) && done <= materials.Keys
    requires index in materials && index !in done
    requires AdvancedAmong(infos, materials, gltfs, cache, done, next, cache')
    requires Resolution(infos[index], materials[index], gltfs).None? ==> next2 == next && cache2 == cache'
    requires Resolution(infos[index], materials[index], gltfs).Some? ==>
               var material := Resolution(infos[index], materials[index], gltfs).value;
               next2 == next[index := Ok(material)] && cache2 == cache'[FullPath(infos[index]) := material]
    ensures AdvancedAmong(infos, materials, gltfs, cache, done + {index}, next2, cache2)
  {
    ResolvedKeysStep(infos, materials, gltfs, done, index);
    var written2 := ResolvedKeys(infos, materials, gltfs, done + {index});
    forall key | key in written2
      ensures WrittenFrom(cache2, key, infos, materials, gltfs, done + {index})
    {
      WrittenFromStep(infos, materials, gltfs, cache, done, index, next, cache', next2, cache2, key);
    }
  }

  lemma WrittenFromStep(infos: seq<MaterialInfo>, materials: map<nat, Slot>, gltfs: GltfStore, cache: Cache,
                        done: set<nat>, index: nat, next: map<nat, Slot>, cache': Cache,
                        next2: map<nat, Slot>, cache2: Cache, key: string)
    requires Indexed(materials, |infos|) && done <= materials.Keys
    requires index in materials && index !in done
    requires AdvancedAmong(infos, materials, gltfs, cache, done, next, cache')
    requires Resolution(infos[index], materials[index], gltfs).None? ==> next2 == next && cache2 == cache'
    requires Resolution(infos[index], materials[index], gltfs).Some? ==>
               var material := Resolution(infos[index], materials[index], gltfs).value;
               next2 == next[index := Ok(material)] && cache2 == cache'[FullPath(infos[index]) := material]
    requires key in ResolvedKeys(infos, materials, gltfs, done + {index})
    ensures WrittenFrom(cache2, key, infos, materials, gltfs, done + {index})
  {
    ResolvedKeysStep(infos, materials, gltfs, done, index);
    var resolution := Resolution(infos[index], materials[index], gltfs);
    if resolution.Some? && key == FullPath(infos[index]) {
      assert cache2[key] == resolution.value;
    } else {
      assert WrittenFrom(cache', key, infos, materials, gltfs, done);
      var i :| i in done && FullPath(infos[i]) == key
               && Resolution(infos[i], materials[i], gltfs) == Some(cache'[key]);
      assert cache2[key] == cache'[key];
    }
  }

  lemma ResolvedKeysStep(infos: seq<MaterialInfo>, materials: map<nat, Slot>, gltfs: GltfStore,
                         done: set<nat>, index: nat)
    requires Indexed(materials, |infos|) && done <= materials.Keys && index in materials
    ensures ResolvedKeys(infos, materials, gltfs, done + {index}) ==
            ResolvedKeys(infos, materials, gltfs, done) +
            (if Resolution(infos[index], materials[index], gltfs).Some? then {FullPath(infos[index])} else {})
  {
  }

  /** An entry changes exactly when it is pending and its file is available and names the material. */
  lemma AdvanceChangesOnlyAvailable(infos: seq<MaterialInfo>, materials: map<nat, Slot>,
                                    gltfs: GltfStore, i: nat)
    requires Indexed(materials, |infos|) && i in materials
    ensures var before, after := materials[i], Advanced(infos, materials, gltfs)[i];
            (after != before <==>
              before.Err? && before.gltf in gltfs && infos[i].name in gltfs[before.gltf])
            && (after != before ==> after == Ok(gltfs[before.gltf][infos[i].name]))
  {
  }

  /**
   * Resolution is monotonic: `Ok` entries keep their material and the set
   * of resolved indices only grows.
   */
  lemma AdvanceMonotone(infos: seq<MaterialInfo>, materials: map<nat, Slot>, gltfs: GltfStore)
    requires Indexed(materials, |infos|)
    ensures var next := Advanced(infos, materials, gltfs);
            && (forall i :: i in materials && materials[i].Ok? ==> next[i] == materials[i])
            && ResolvedIndices(materials) <= ResolvedIndices(next)
            && |ResolvedIndices(materials)| <= |ResolvedIndices(next)|
  {
    var next := Advanced(infos, materials, gltfs);
    assert ResolvedIndices(materials) <= ResolvedIndices(next);
    SubsetCardinality(ResolvedIndices(materials), ResolvedIndices(next));
  }

  lemma SubsetCardinality(a: set<nat>, b: set<nat>)
    requires a <= b
    ensures |a| <= |b|
  {
    assert b == a + (b - a);
  }

  /** Once every pending file is available and names its material, one advance loads the entity. */
  lemma AdvanceCompletes(infos: seq<MaterialInfo>, materials: map<nat, Slot>, gltfs: GltfStore)
    requires Indexed(materials, |infos|)
    requires forall i :: i in materials && materials[i].Err? ==>
               materials[i].gltf in gltfs && infos[i].name in gltfs[materials[i].gltf]
    ensures Loaded(Advanced(infos, materials, gltfs))
  {
  }

  /** Advancing a loaded map changes nothing and writes nothing to the cache. */
  lemma AdvanceLoadedIdentity(infos: seq<MaterialInfo>, materials: map<nat, Slot>, gltfs: GltfStore,
                              cache: Cache)
    requires Indexed(materials, |infos|) && Loaded(materials)
    ensures Advanced(infos, materials, gltfs) == materials
    ensures CacheAdvanced(cache, cache, infos, materials, gltfs)
  {
    assert ResolvedKeys(infos, materials, gltfs, materials.Keys) == {};
  }

  /** Pending entries keep waiting on the file of their own path. */
  lemma AdvancePreservesHandles(infos: seq<MaterialInfo>, materials: map<nat, Slot>, gltfs: GltfStore,
                                handleOf: string -> GltfHandle)
    requires Indexed(materials, |infos|) && HandlesFollowPaths(infos, materials, handleOf)
    ensures HandlesFollowPaths(infos, Advanced(infos, materials, gltfs), handleOf)
  {
  }

  /**
   * The key reconcile writes is the key dispatch looks up: once an entry
   * resolves, a later dispatch of the same reference finds it cached, loads
   * nothing and records it as `Ok`.
   */
  lemma ReconciledKeyHitsDispatch(before: Cache, after: Cache, infos: seq<MaterialInfo>,
                                  materials: map<nat, Slot>, gltfs: GltfStore, i: nat,
                                  handleOf: string -> GltfHandle)
    requires Indexed(materials, |infos|) && CacheAdvanced(before, after, infos, materials, gltfs)
    requires i in materials && Resolution(infos[i], materials[i], gltfs).Some?
    ensures FullPath(infos[i]) in after
    ensures MissedPaths([infos[i]], after) == []
    ensures Dispatched([infos[i]], after, handleOf) == map[0 := Ok(after[FullPath(infos[i])])]
  {
  }

  /** With consistent resolutions, the cache holds under each key the material resolved for it. */
  lemma CacheHoldsResolution(before: Cache, after: Cache, infos: seq<MaterialInfo>,
                             materials: map<nat, Slot>, gltfs: GltfStore, i: nat)
    requires Indexed(materials, |infos|) && CacheAdvanced(before, after, infos, materials, gltfs)
    requires ConsistentResolutions(infos, materials, gltfs)
    requires i in materials && Resolution(infos[i], materials[i], gltfs).Some?
    ensures FullPath(infos[i]) in after
    ensures Some(after[FullPath(infos[i])]) == Resolution(infos[i], materials[i], gltfs)
  {
    var key := FullPath(infos[i]);
    assert key in ResolvedKeys(infos, materials, gltfs, materials.Keys);
    assert WrittenFrom(after, key, infos, materials, gltfs, materials.Keys);
    var j :| j in materials && FullPath(infos[j]) == key
             && Resolution(infos[j], materials[j], gltfs) == Some(after[key]);
  }

  /**
   * Resolutions are consistent when pending entries wait on the file of
   * their own path and no path contains '#': one key is then one
   * reference, so one file and one name.
   */
  lemma ConsistentWhenKeysUnambiguous(infos: seq<MaterialInfo>, materials: map<nat, Slot>,
                                      gltfs: GltfStore, handleOf: string -> GltfHandle)
    requires Indexed(materials, |infos|) && HandlesFollowPaths(infos, materials, handleOf)
    requires forall i :: 0 <= i < |infos| ==> '#' !in infos[i].path
    ensures ConsistentResolutions(infos, materials, gltfs)
  {
    forall i, j | i in materials && j in materials && FullPath(infos[i]) == FullPath(infos[j])
                  && Resolution(infos[i], materials[i], gltfs).Some?
                  && Resolution(infos[j], materials[j], gltfs).Some?
      ensures Resolution(infos[i], materials[i], gltfs) == Resolution(infos[j], materials[j], gltfs)
    {
      FullPathInjective(infos[i], infos[j]);
    }
  }

  /** The `with_materials_and_meshes` filter: `Parent`, `Mesh3d` and a `MeshMaterial3d` already present. */
  predicate Qualifies(hasParent: bool, hasMesh: bool, meshMaterial: Option<Material>)
  {
    hasParent && hasMesh && meshMaterial.Some?
  }

  /** The `MeshMaterial3d` of the child at `position` after injecting a loaded map. */
  function InjectedMaterial(materials: map<nat, Slot>, position: nat, qualifies: bool,
                            current: Option<Material>): (r: Option<Material>)
    ensures r != current ==> qualifies && position in materials && materials[position].Ok?
    ensures qualifies && position in materials && materials[position].Ok? ==>
              r == Some(materials[position].material)
  {
    if qualifies && position in materials && materials[position].Ok?
    then Some(materials[position].material)
    else current
  }

  /**
   * The phase after `inject_materials` has looked at an entity. It acts only
   * on a processing entity that has a `Children` component: the entity
   * finishes once every entry is `Ok` after advancing, and otherwise stays
   * in processing with the advanced map, which then still has a pending entry.
   */
  function ReconcilePhase(infos: seq<MaterialInfo>, hasChildren: bool, phase: Phase,
                          gltfs: GltfStore): (r: Phase)
    requires IndexedPhase(phase, |infos|)
    ensures IndexedPhase(r, |infos|)
    ensures !(phase.Processing? && hasChildren) ==> r == phase
    ensures phase.Processing? && hasChildren ==>
              r != Untouched && (r.Processing? ==> !Loaded(r.materials))
    ensures r.Processed? ==> phase.Processed? || (phase.Processing? && hasChildren)
    ensures phase.Processing? && hasChildren ==>
              (r.Processed? <==> Loaded(Advanced(infos, phase.materials, gltfs)))
    ensures phase.Processing? && hasChildren && r.Processing? ==>
              r.materials == Advanced(infos, phase.materials, gltfs)
  {
    if phase.Processing? && hasChildren then
      var next := Advanced(infos, phase.materials, gltfs);
      if Loaded(next) then Processed else Processing(next)
    else
      phase
  }

  /**
   * A processing entity with `Children` whose pending files are all
   * available and name their materials is finished by one reconcile.
   */
  lemma ReconcileFinishesWhenAvailable(infos: seq<MaterialInfo>, phase: Phase, gltfs: GltfStore)
    requires IndexedPhase(phase, |infos|) && phase.Processing?
    requires forall i :: i in phase.materials && phase.materials[i].Err? ==>
               phase.materials[i].gltf in gltfs && infos[i].name in gltfs[phase.materials[i].gltf]
    ensures ReconcilePhase(infos, true, phase, gltfs) == Processed
  {
  }

  /** The cache keys `inject_materials` writes for one entity. */
  function ReconciledKeys(infos: seq<MaterialInfo>, hasChildren: bool, phase: Phase,
                          gltfs: GltfStore): set<string>
    requires IndexedPhase(phase, |infos|)
  {
    if phase.Processing? && hasChildren
    then ResolvedKeys(infos, phase.materials, gltfs, phase.materials.Keys)
    else {}
  }

  /** The `MeshMaterial3d` of an entity's child at `position` after `inject_materials`. */
  function ChildAfter(infos: seq<MaterialInfo>, hasChildren: bool, phase: Phase, gltfs: GltfStore,
                      position: nat, hasParent: bool, hasMesh: bool,
                      current: Option<Material>): (r: Option<Material>)
    requires IndexedPhase(phase, |infos|)
    ensures !(phase.Processing? && hasChildren) ==> r == current
    ensures !Qualifies(hasParent, hasMesh, current) ==> r == current
  {
    if phase.Processing? && hasChildren && Loaded(Advanced(infos, phase.materials, gltfs))
    then InjectedMaterial(Advanced(infos, phase.materials, gltfs), position,
                          Qualifies(hasParent, hasMesh, current), current)
    else current
  }

  /**
   * A child changes only in the tick that finishes its entity, only if it
   * qualifies and only if its position has an entry; in that tick a
   * qualifying child at position i receives the material of entry i.
   */
  lemma InjectionIsPositional(infos: seq<MaterialInfo>, hasChildren: bool, phase: Phase,
                              gltfs: GltfStore, position: nat, hasParent: bool, hasMesh: bool,
                              current: Option<Material>)
    requires IndexedPhase(phase, |infos|)
    ensures var after := ChildAfter(infos, hasChildren, phase, gltfs, position, hasParent, hasMesh, current);
            var finished := phase.Processing? && ReconcilePhase(infos, hasChildren, phase, gltfs).Processed?;
            && (after != current ==> finished && Qualifies(hasParent, hasMesh, current) && position < |infos|)
            && (finished && Qualifies(hasParent, hasMesh, current) && position < |infos| ==>
                  after == Some(Advanced(infos, phase.materials, gltfs)[position].material))
  {
  }
}
