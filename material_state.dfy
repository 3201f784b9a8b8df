/**
 * The values of blenvy's material-resolution engine
 * (crates/blenvy/src/blueprints/materials.rs): material references, the
 * per-index resolution state held by `MaterialProcessing`, the
 * process-wide materials cache and the three phases an entity goes through.
 * Handles and materials are opaque ids.
 */
module MaterialState {

  datatype Option<T> = None | Some(value: T)

  /** A `Handle<StandardMaterial>`: an opaque material id. */
  datatype Material = Material(id: nat)

  /** A `Handle<Gltf>`: an opaque id of a glTF file being loaded. */
  datatype GltfHandle = GltfHandle(id: nat)

  /** `MaterialInfo`: the name of a material and the path of the file that holds it. */
  datatype MaterialInfo = MaterialInfo(name: string, path: string)

  /**
   * One entry of `MaterialProcessing.materials`: `Ok` holds the resolved
   * material, `Err` the handle of the glTF file still awaited.
   */
  datatype Slot = Ok(material: Material) | Err(gltf: GltfHandle)

  /**
   * The phase of an entity carrying `MaterialInfos`: neither marker,
   * `MaterialProcessing` (with its index map) or `MaterialProcessed`.
   */
  datatype Phase = Untouched | Processing(materials: map<nat, Slot>) | Processed

  /** `BlenvyConfig.materials_cache`: fully-qualified key to material. */
  type Cache = map<string, Material>

  /**
   * `Assets<Gltf>` as this model sees it: a handle whose file is available
   * maps to the file's `named_materials`; a handle still loading is absent.
   */
  type GltfStore = map<GltfHandle, map<string, Material>>

  /** The cache key of a reference: its path, a '#', then its name. */
  function FullPath(info: MaterialInfo): string
  {
    info.path + "#" + info.name
  }

  /** The index map has exactly one entry per reference of a list of length n. */
  ghost predicate Indexed(materials: map<nat, Slot>, n: nat)
  {
    forall i: nat :: i in materials <==> i < n
  }

  ghost predicate IndexedPhase(phase: Phase, n: nat)
  {
    phase.Processing? ==> Indexed(phase.materials, n)
  }

  function PendingIndices(materials: map<nat, Slot>): set<nat>
  {
    set i | i in materials && materials[i].Err?
  }

  function ResolvedIndices(materials: map<nat, Slot>): set<nat>
  {
    set i | i in materials && materials[i].Ok?
  }

  /**
   * `MaterialProcessing::loaded`: every entry is `Ok`. An empty map is
   * loaded; otherwise loaded means no index is pending, that is, the
   * resolved indices are all the indices.
   */
  function Loaded(materials: map<nat, Slot>): (r: bool)
    ensures materials == map[] ==> r
  {
    forall i :: i in materials ==> materials[i].Ok?
  }

  /** Loaded means no index is pending, that is, all indices are resolved. */
  lemma LoadedIffNoPending(materials: map<nat, Slot>)
    ensures Loaded(materials) <==> PendingIndices(materials) == {}
    ensures Loaded(materials) <==> ResolvedIndices(materials) == materials.Keys
  {
    if !Loaded(materials) {
      var i :| i in materials && materials[i].Err?;
      assert i in PendingIndices(materials);
      assert i !in ResolvedIndices(materials);
    }
  }

  /** Every pending entry waits on the file loaded from its own reference's path. */
  ghost predicate HandlesFollowPaths(infos: seq<MaterialInfo>, materials: map<nat, Slot>,
                                     handleOf: string -> GltfHandle)
    requires Indexed(materials, |infos|)
  {
    forall i :: i in materials && materials[i].Err? ==> materials[i].gltf == handleOf(infos[i].path)
  }

  /** The key reads back as the path, then a '#' at the path's length, then the name. */
  lemma FullPathLayout(info: MaterialInfo)
    ensures |FullPath(info)| == |info.path| + 1 + |info.name|
    ensures FullPath(info)[..|info.path|] == info.path
    ensures FullPath(info)[|info.path|] == '#'
    ensures FullPath(info)[|info.path| + 1..] == info.name
  {
  }

  /**
   * As long as paths contain no '#', the key determines the reference:
   * two references with the same key are the same reference.
   */
  lemma FullPathInjective(a: MaterialInfo, b: MaterialInfo)
    requires '#' !in a.path && '#' !in b.path
    requires FullPath(a) == FullPath(b)
    ensures a == b
  {
    var key := FullPath(a);
    assert key[|a.path|] == '#';
    assert key[|b.path|] == '#';
    if |a.path| < |b.path| {
      assert false;
    } else if |b.path| < |a.path| {
      assert false;
    }
    assert a.path == key[..|a.path|] == b.path;
    assert a.name == key[|a.path| + 1..] == b.name;
  }

  /**
   * Without that restriction the key is ambiguous: the path "a#" with the
   * name "b" and the path "a" with the name "#b" share the key "a##b".
   */
  lemma KeyCollision()
    ensures MaterialInfo("b", "a#") != MaterialInfo("#b", "a")
    ensures FullPath(MaterialInfo("b", "a#")) == FullPath(MaterialInfo("#b", "a")) == "a##b"
  {
  }
}
