/**
 * The first system, `load_material_gltfs`: for an entity that carries
 * `MaterialInfos` and neither marker, build the index map of
 * `MaterialProcessing` from the materials cache, issuing a file load for
 * every reference whose key is not cached.
 *
 * `AssetServer::load` is the parameter `handleOf`: the host hands out one
 * handle per asset path. The loads a call issues are returned as the list
 * of paths it asked for.
 */
module Dispatch {
  import opened MaterialState

  /** The entry dispatch records for one reference. */
  function DispatchEntry(info: MaterialInfo, cache: Cache, handleOf: string -> GltfHandle): (r: Slot)
    ensures r.Ok? <==> FullPath(info) in cache
    ensures r.Ok? ==> r.material == cache[FullPath(info)]
    ensures r.Err? ==> r.gltf == handleOf(info.path)
  {
    var key := FullPath(info);
    if key in cache then Ok(cache[key]) else Err(handleOf(info.path))
  }

  /**
   * The index map dispatch attaches: one entry per reference index; the
   * `Ok` entries are exactly the references whose key is cached, holding the
   * cached material; every other entry awaits the file of its own path.
   */
  function Dispatched(infos: seq<MaterialInfo>, cache: Cache, handleOf: string -> GltfHandle)
    : (r: map<nat, Slot>)
    ensures Indexed(r, |infos|)
    ensures forall i :: i in r ==> (r[i].Ok? <==> FullPath(infos[i]) in cache)
    ensures forall i :: i in r && r[i].Ok? ==> r[i].material == cache[FullPath(infos[i])]
    ensures HandlesFollowPaths(infos, r, handleOf)
  {
    map i: nat | i < |infos| :: DispatchEntry(infos[i], cache, handleOf)
  }

  /**
   * The phase after `load_material_gltfs` has looked at an entity: only an
   * entity with neither marker is touched, and it enters processing.
   */
  function DispatchPhase(infos: seq<MaterialInfo>, phase: Phase, cache: Cache,
                         handleOf: string -> GltfHandle): (r: Phase)
    ensures !phase.Untouched? ==> r == phase
    ensures phase.Untouched? ==> r.Processing? && Indexed(r.materials, |infos|)
    ensures IndexedPhase(phase, |infos|) ==> IndexedPhase(r, |infos|)
  {
    if phase.Untouched? then Processing(Dispatched(infos, cache, handleOf)) else phase
  }

  /** The paths dispatch loads for a reference list, in reference order: one per cache miss. */
  function MissedPaths(infos: seq<MaterialInfo>, cache: Cache): (r: seq<string>)
    ensures |r| <= |infos|
  {
    if infos == [] then []
    else
      var last := infos[|infos| - 1];
      MissedPaths(infos[..|infos| - 1], cache) + (if FullPath(last) in cache then [] else [last.path])
  }

  /** The indices below n whose key is not cached. */
  function MissIndices(infos: seq<MaterialInfo>, cache: Cache, n: nat): set<nat>
    requires n <= |infos|
  {
    set i: nat | i < n && FullPath(infos[i]) !in cache
  }

  /**
   * The loop of `load_material_gltfs` over one entity's references: a
   * cached key gives `Ok(cached material)` and loads nothing; any other
   * reference loads its file and waits on the handle.
   */
  method BuildMaterials(infos: seq<MaterialInfo>, cache: Cache, handleOf: string -> GltfHandle)
    returns (materials: map<nat, Slot>, loads: seq<string>)
    ensures Indexed(materials, |infos|)
    ensures forall i :: 0 <= i < |infos| && FullPath(infos[i]) in cache ==>
              materials[i] == Ok(cache[FullPath(infos[i])])
    ensures forall i :: 0 <= i < |infos| && FullPath(infos[i]) !in cache ==>
              materials[i] == Err(handleOf(infos[i].path))
    ensures loads == MissedPaths(infos, cache)
  {
    materials, loads := map[], [];
    for i := 0 to |infos|
      invariant Indexed(materials, i)
      invariant forall j :: 0 <= j < i ==> materials[j] == DispatchEntry(infos[j], cache, handleOf)
      invariant loads == MissedPaths(infos[..i], cache)
    {
      var info := infos[i];
      var fullPath := FullPath(info);
      if fullPath in cache {
        materials := materials[i := Ok(cache[fullPath])];
      } else {
        var handle := handleOf(info.path);
        materials := materials[i := Err(handle)];
        loads := loads + [info.path];
      }
      assert infos[..i + 1][..i] == infos[..i];
    }
    assert infos[..|infos|] == infos;
  }

  /**
   * When every key is cached, dispatch loads nothing and the entity enters
   * processing already loaded.
   */
  lemma {:induction false} AllCachedLoadsNothing(infos: seq<MaterialInfo>, cache: Cache,
                                                 handleOf: string -> GltfHandle)
    requires forall i :: 0 <= i < |infos| ==> FullPath(infos[i]) in cache
    ensures MissedPaths(infos, cache) == []
    ensures Loaded(Dispatched(infos, cache, handleOf))
  {
    if infos != [] {
      AllCachedLoadsNothing(infos[..|infos| - 1], cache, handleOf);
    }
  }

  /** A path is loaded exactly when some reference with that path misses the cache. */
  lemma {:induction false} MissedPathsExact(infos: seq<MaterialInfo>, cache: Cache, p: string)
    ensures p in MissedPaths(infos, cache) <==>
            exists i :: 0 <= i < |infos| && FullPath(infos[i]) !in cache && infos[i].path == p
  {
    if infos != [] {
      var init := infos[..|infos| - 1];
      MissedPathsExact(init, cache, p);
      if exists i :: 0 <= i < |infos| && FullPath(infos[i]) !in cache && infos[i].path == p {
        var i :| 0 <= i < |infos| && FullPath(infos[i]) !in cache && infos[i].path == p;
        if i < |init| {
          assert init[i] == infos[i];
        }
      }
      if exists i :: 0 <= i < |init| && FullPath(init[i]) !in cache && init[i].path == p {
        var i :| 0 <= i < |init| && FullPath(init[i]) !in cache && init[i].path == p;
        assert infos[i] == init[i];
      }
    }
  }

  /** One load is issued per pending entry of the attached map. */
  lemma LoadsMatchPending(infos: seq<MaterialInfo>, cache: Cache, handleOf: string -> GltfHandle)
    ensures |MissedPaths(infos, cache)| == |PendingIndices(Dispatched(infos, cache, handleOf))|
  {
    assert PendingIndices(Dispatched(infos, cache, handleOf)) == MissIndices(infos, cache, |infos|);
    MissedPathsCount(infos, cache);
  }

  lemma {:induction false} MissedPathsCount(infos: seq<MaterialInfo>, cache: Cache)
    ensures |MissedPaths(infos, cache)| == |MissIndices(infos, cache, |infos|)|
  {
    if infos != [] {
      var n := |infos|;
      var init := infos[..n - 1];
      MissedPathsCount(init, cache);
      assert MissIndices(init, cache, n - 1) == MissIndices(infos, cache, n - 1);
      if FullPath(infos[n - 1]) in cache {
        assert MissIndices(infos, cache, n) == MissIndices(infos, cache, n - 1);
      } else {
        assert MissIndices(infos, cache, n) == MissIndices(infos, cache, n - 1) + {n - 1};
      }
    }
  }
}
