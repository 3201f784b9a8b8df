/**
 * The two Bevy systems of crates/blenvy/src/blueprints/materials.rs over
 * the world's state: entities carrying `MaterialInfos`, their children, and
 * the `BlenvyConfig` resource with its materials cache. Deferred commands
 * are applied at once; each entity's update reads only that entity's state,
 * its own children and the cache, so this gives the same end state.
 */
module Systems {
  import opened MaterialState
  import opened Dispatch
  import opened Reconcile

  /** The `BlenvyConfig` resource; only its materials cache matters here. */
  class BlenvyConfig {
    var materialsCache: Cache

    constructor ()
      ensures materialsCache == map[]
    {
      materialsCache := map[];
    }
  }

  /** A child entity: whether it has `Parent` and `Mesh3d`, and its `MeshMaterial3d`, if any. */
  class Child {
    const hasParent: bool
    const hasMesh: bool
    var meshMaterial: Option<Material>

    constructor (hasParent: bool, hasMesh: bool, meshMaterial: Option<Material>)
      ensures this.hasParent == hasParent && this.hasMesh == hasMesh && this.meshMaterial == meshMaterial
    {
      this.hasParent, this.hasMesh, this.meshMaterial := hasParent, hasMesh, meshMaterial;
    }
  }

  predicate Distinct<T(==)>(s: seq<T>)
  {
    forall a, b :: 0 <= a < b < |s| ==> s[a] != s[b]
  }

  /**
   * An entity carrying `MaterialInfos`: its references, whether it has a
   * `Children` component and the children it lists, and its phase.
   */
  class Entity {
    const infos: seq<MaterialInfo>
    const hasChildren: bool
    const children: seq<Child>
    var phase: Phase

    ghost predicate Valid()
      reads this
    {
      IndexedPhase(phase, |infos|) && Distinct(children)
    }

    constructor (infos: seq<MaterialInfo>, hasChildren: bool, children: seq<Child>)
      requires Distinct(children) && (hasChildren || children == [])
      ensures Valid() && phase == Untouched
      ensures this.infos == infos && this.hasChildren == hasChildren && this.children == children
    {
      this.infos, this.hasChildren, this.children := infos, hasChildren, children;
      phase := Untouched;
    }
  }

  /** A child belongs to one parent: no two entities list the same child. */
  ghost predicate ChildrenDisjoint(entities: set<Entity>)
  {
    forall e1, e2, c :: e1 in entities && e2 in entities && e1 != e2 && c in e1.children ==> c !in e2.children
  }

  function AllChildren(entities: set<Entity>): set<Child>
  {
    set e, c | e in entities && c in e.children :: c
  }

  /**
   * `load_material_gltfs`: every entity with neither marker gets
   * `MaterialProcessing` built from the cache as it stands; the others are
   * left alone and the cache is only read. The loads issued are exactly the
   * paths such entities reference under keys the cache lacks.
   */
  method LoadMaterialGltfs(config: BlenvyConfig, entities: set<Entity>, handleOf: string -> GltfHandle)
    returns (loads: seq<string>)
    requires forall e :: e in entities ==> e.Valid()
    modifies entities
    ensures forall e :: e in entities ==>
              e.Valid() && e.phase == DispatchPhase(e.infos, old(e.phase), config.materialsCache, handleOf)
    ensures forall p :: p in loads ==>
              exists e :: e in entities && old(e.phase).Untouched? && p in MissedPaths(e.infos, config.materialsCache)
    ensures forall e, p :: e in entities && old(e.phase).Untouched? && p in MissedPaths(e.infos, config.materialsCache) ==>
              p in loads
  {
    loads := [];
    var todo := entities;
    while todo != {}
      invariant todo <= entities
      invariant forall e :: e in entities ==> e.Valid()
      invariant forall e :: e in entities ==>
                  e.phase == if e in todo then old(e.phase)
                             else DispatchPhase(e.infos, old(e.phase), config.materialsCache, handleOf)
      invariant forall p :: p in loads ==>
                  exists e :: e in entities && old(e.phase).Untouched? && p in MissedPaths(e.infos, config.materialsCache)
      invariant forall e, p :: e in entities && e !in todo && old(e.phase).Untouched? &&
                               p in MissedPaths(e.infos, config.materialsCache) ==>
                  p in loads
      decreases todo
    {
      var entity :| entity in todo;
      if entity.phase.Untouched? {
        var materials, missed := BuildMaterials(entity.infos, config.materialsCache, handleOf);
        assert materials == Dispatched(entity.infos, config.materialsCache, handleOf);
        entity.phase := Processing(materials);
        loads := loads + missed;
      }
      todo := todo - {entity};
    }
  }

  /**
   * The injecting loop of `inject_materials` for a loaded map: the map is
   * visited in an unspecified order and, for each index, the children in
   * order; the child whose position equals the index receives the material
   * when it qualifies. Every other child is left alone.
   */
  method InjectChildren(materials: map<nat, Slot>, children: seq<Child>)
    requires Loaded(materials) && Distinct(children)
    modifies children
    ensures forall j :: 0 <= j < |children| ==>
              children[j].meshMaterial ==
                InjectedMaterial(materials, j,
                                 Qualifies(children[j].hasParent, children[j].hasMesh, old(children[j].meshMaterial)),
                                 old(children[j].meshMaterial))
  {
    var todo := materials.Keys;
    while todo != {}
      invariant todo <= materials.Keys
      invariant forall j :: 0 <= j < |children| ==>
                  children[j].meshMaterial ==
                    if j in todo then old(children[j].meshMaterial)
                    else InjectedMaterial(materials, j,
                                          Qualifies(children[j].hasParent, children[j].hasMesh, old(children[j].meshMaterial)),
                                          old(children[j].meshMaterial))
      decreases todo
    {
      var index :| index in todo;
      var material := materials[index].material;
      for position := 0 to |children|
        invariant forall j :: 0 <= j < |children| ==>
                    children[j].meshMaterial ==
                      if j in todo && !(j == index && j < position) then old(children[j].meshMaterial)
                      else InjectedMaterial(materials, j,
                                            Qualifies(children[j].hasParent, children[j].hasMesh, old(children[j].meshMaterial)),
                                            old(children[j].meshMaterial))
      {
        var child := children[position];
        if position == index && Qualifies(child.hasParent, child.hasMesh, child.meshMaterial) {
          child.meshMaterial := Some(material);
        }
      }
      todo := todo - {index};
    }
  }

  /**
   * The body of `inject_materials` for one processing entity with
   * `Children`: advance unless already loaded; stop while anything is
   * pending; otherwise inject and swap `MaterialProcessing` for
   * `MaterialProcessed`.
   */
  method ReconcileEntity(config: BlenvyConfig, entity: Entity, gltfs: GltfStore)
    requires entity.Valid() && entity.phase.Processing? && entity.hasChildren
    modifies config, entity, entity.children
    ensures entity.Valid()
    ensures entity.phase == ReconcilePhase(entity.infos, true, old(entity.phase), gltfs)
    ensures CacheAdvanced(old(config.materialsCache), config.materialsCache, entity.infos,
                          old(entity.phase).materials, gltfs)
    ensures forall j :: 0 <= j < |entity.children| ==>
              entity.children[j].meshMaterial ==
                ChildAfter(entity.infos, true, old(entity.phase), gltfs, j, entity.children[j].hasParent,
                           entity.children[j].hasMesh, old(entity.children[j].meshMaterial))
  {
    var materials := entity.phase.materials;
    if !Loaded(materials) {
      var next, cache := Advance(entity.infos, materials, config.materialsCache, gltfs);
      config.materialsCache := cache;
      entity.phase := Processing(next);
      if !Loaded(next) {
        return;
      }
      materials := next;
    } else {
      AdvanceLoadedIdentity(entity.infos, materials, gltfs, config.materialsCache);
    }
    InjectChildren(materials, entity.children);
    entity.phase := Processed;
  }

  /**
   * `inject_materials`: every processing entity with `Children` is
   * reconciled; the others are left alone. The cache keeps every key,
   * gains the keys this tick resolves and no other, and a key no entity
   * resolves keeps its value.
   */
  method InjectMaterials(config: BlenvyConfig, entities: set<Entity>, gltfs: GltfStore)
    requires forall e :: e in entities ==> e.Valid()
    requires ChildrenDisjoint(entities)
    modifies config, entities, AllChildren(entities)
    ensures forall e :: e in entities ==> IndexedPhase(old(e.phase), |e.infos|)
    ensures forall e :: e in entities ==>
              e.Valid() && e.phase == ReconcilePhase(e.infos, e.hasChildren, old(e.phase), gltfs)
    ensures forall e, j :: e in entities && 0 <= j < |e.children| ==>
              e.children[j].meshMaterial ==
                ChildAfter(e.infos, e.hasChildren, old(e.phase), gltfs, j, e.children[j].hasParent,
                           e.children[j].hasMesh, old(e.children[j].meshMaterial))
    ensures old(config.materialsCache).Keys <= config.materialsCache.Keys
    ensures forall e :: e in entities ==>
              ReconciledKeys(e.infos, e.hasChildren, old(e.phase), gltfs) <= config.materialsCache.Keys
    ensures forall key :: key in config.materialsCache ==>
              key in old(config.materialsCache) ||
              exists e :: e in entities && key in ReconciledKeys(e.infos, e.hasChildren, old(e.phase), gltfs)
    ensures forall key ::
              (key in old(config.materialsCache) &&
               forall e :: e in entities ==> key !in ReconciledKeys(e.infos, e.hasChildren, old(e.phase), gltfs))
              ==> config.materialsCache[key] == old(config.materialsCache)[key]
  {
    var todo := entities;
    while todo != {}
      invariant todo <= entities
      invariant forall e :: e in entities ==> e.Valid()
      invariant forall e :: e in entities ==> IndexedPhase(old(e.phase), |e.infos|)
      invariant forall e :: e in entities ==>
                  e.phase == if e in todo then old(e.phase)
                             else ReconcilePhase(e.infos, e.hasChildren, old(e.phase), gltfs)
      invariant forall e, j :: e in entities && 0 <= j < |e.children| ==>
                  e.children[j].meshMaterial ==
                    if e in todo then old(e.children[j].meshMaterial)
                    else ChildAfter(e.infos, e.hasChildren, old(e.phase), gltfs, j, e.children[j].hasParent,
                                    e.children[j].hasMesh, old(e.children[j].meshMaterial))
      invariant old(config.materialsCache).Keys <= config.materialsCache.Keys
      invariant forall e :: e in entities && e !in todo ==>
                  ReconciledKeys(e.infos, e.hasChildren, old(e.phase), gltfs) <= config.materialsCache.Keys
      invariant forall key :: key in config.materialsCache ==>
                  key in old(config.materialsCache) ||
                  exists e :: e in entities && e !in todo
                              && key in ReconciledKeys(e.infos, e.hasChildren, old(e.phase), gltfs)
      invariant forall key ::
                  (key in old(config.materialsCache) &&
                   forall e :: e in entities && e !in todo ==>
                     key !in ReconciledKeys(e.infos, e.hasChildren, old(e.phase), gltfs))
                  ==> key in config.materialsCache && config.materialsCache[key] == old(config.materialsCache)[key]
      decreases todo
    {
      var entity :| entity in todo;
      ChildrenOwned(entities, entity);
      VisitEntity(config, entity, gltfs);
      todo := todo - {entity};
    }
  }

  /**
   * One entity as `inject_materials` sees it: reconciled when the query
   * matches it, left alone otherwise. The cache gains exactly the entity's
   * resolved keys, each holding a material resolved under it, and every
   * other key keeps its value.
   */
  method VisitEntity(config: BlenvyConfig, entity: Entity, gltfs: GltfStore)
    requires entity.Valid()
    modifies config, entity, entity.children
    ensures entity.Valid()
    ensures entity.phase == ReconcilePhase(entity.infos, entity.hasChildren, old(entity.phase), gltfs)
    ensures forall j :: 0 <= j < |entity.children| ==>
              entity.children[j].meshMaterial ==
                ChildAfter(entity.infos, entity.hasChildren, old(entity.phase), gltfs, j, entity.children[j].hasParent,
                           entity.children[j].hasMesh, old(entity.children[j].meshMaterial))
    ensures config.materialsCache.Keys ==
              old(config.materialsCache).Keys + ReconciledKeys(entity.infos, entity.hasChildren, old(entity.phase), gltfs)
    ensures forall key :: key in old(config.materialsCache)
                          && key !in ReconciledKeys(entity.infos, entity.hasChildren, old(entity.phase), gltfs) ==>
              config.materialsCache[key] == old(config.materialsCache)[key]
    ensures old(entity.phase).Processing? && entity.hasChildren ==>
              CacheAdvanced(old(config.materialsCache), config.materialsCache, entity.infos,
                            old(entity.phase).materials, gltfs)
  {
    if entity.phase.Processing? && entity.hasChildren {
      ReconcileEntity(config, entity, gltfs);
    }
  }

  /** An entity's children are among all children, and no other entity lists them. */
  lemma ChildrenOwned(entities: set<Entity>, entity: Entity)
    requires entity in entities && ChildrenDisjoint(entities)
    ensures forall c :: c in entity.children ==> c in AllChildren(entities)
    ensures forall e, j :: e in entities && e != entity && 0 <= j < |e.children| ==> e.children[j] !in entity.children
  {
  }
}
