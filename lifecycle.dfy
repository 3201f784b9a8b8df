/**
 * One entity's phase across any interleaving of the two systems. Each run
 * of `load_material_gltfs` sees the cache as it then is, each run of
 * `inject_materials` sees the glTF files then available; both are inputs,
 * since other entities and the asset loader change them.
 */
module Lifecycle {
  import opened MaterialState
  import opened Dispatch
  import opened Reconcile

  /**
   * One run of a system. A run of `inject_materials` sees the glTF files then
   * available and whether the entity then has a `Children` component, which
   * may be added on any tick.
   */
  datatype SystemRun = RunDispatch(cache: Cache) | RunReconcile(gltfs: GltfStore, hasChildren: bool)

  /** The entity's facts that no system changes: its references and the loader. */
  datatype EntityFacts = EntityFacts(infos: seq<MaterialInfo>, handleOf: string -> GltfHandle)

  function Apply(entity: EntityFacts, phase: Phase, run: SystemRun): Phase
    requires IndexedPhase(phase, |entity.infos|)
  {
    match run
    case RunDispatch(cache) => DispatchPhase(entity.infos, phase, cache, entity.handleOf)
    case RunReconcile(gltfs, hasChildren) => ReconcilePhase(entity.infos, hasChildren, phase, gltfs)
  }

  /** The phase after a sequence of system runs; every phase on the way keeps an entry per reference. */
  function Run(entity: EntityFacts, phase: Phase, runs: seq<SystemRun>): (r: Phase)
    requires IndexedPhase(phase, |entity.infos|)
    ensures IndexedPhase(r, |entity.infos|)
    decreases |runs|
  {
    if runs == [] then phase else Run(entity, Apply(entity, phase, runs[0]), runs[1..])
  }

  /** How many runs move the entity into `MaterialProcessed`. */
  function Finalisations(entity: EntityFacts, phase: Phase, runs: seq<SystemRun>): nat
    requires IndexedPhase(phase, |entity.infos|)
    decreases |runs|
  {
    if runs == [] then 0
    else
      var next := Apply(entity, phase, runs[0]);
      (if !phase.Processed? && next.Processed? then 1 else 0) + Finalisations(entity, next, runs[1..])
  }

  /** How many runs attach `MaterialProcessing` to the entity. */
  function Dispatches(entity: EntityFacts, phase: Phase, runs: seq<SystemRun>): nat
    requires IndexedPhase(phase, |entity.infos|)
    decreases |runs|
  {
    if runs == [] then 0
    else
      var next := Apply(entity, phase, runs[0]);
      (if runs[0].RunDispatch? && next != phase then 1 else 0) + Dispatches(entity, next, runs[1..])
  }

  /** A processed entity is never processed again. */
  lemma {:induction false} ProcessedIsFinal(entity: EntityFacts, phase: Phase, runs: seq<SystemRun>)
    requires phase.Processed?
    ensures Run(entity, phase, runs) == Processed
    ensures Finalisations(entity, phase, runs) == 0
    ensures Dispatches(entity, phase, runs) == 0
    decreases |runs|
  {
    if runs != [] {
      ProcessedIsFinal(entity, Apply(entity, phase, runs[0]), runs[1..]);
    }
  }

  /** Whatever the runs, the entity is finalised at most once, and never if it already was. */
  lemma {:induction false} FinalisedAtMostOnce(entity: EntityFacts, phase: Phase, runs: seq<SystemRun>)
    requires IndexedPhase(phase, |entity.infos|)
    ensures Finalisations(entity, phase, runs) <= 1
    ensures phase.Processed? ==> Finalisations(entity, phase, runs) == 0
    decreases |runs|
  {
    if runs != [] {
      var next := Apply(entity, phase, runs[0]);
      if next.Processed? {
        ProcessedIsFinal(entity, next, runs[1..]);
      } else {
        FinalisedAtMostOnce(entity, next, runs[1..]);
      }
    }
  }

  /** `MaterialProcessing` is attached at most once, and only to an untouched entity. */
  lemma {:induction false} DispatchedAtMostOnce(entity: EntityFacts, phase: Phase, runs: seq<SystemRun>)
    requires IndexedPhase(phase, |entity.infos|)
    ensures Dispatches(entity, phase, runs) <= 1
    ensures !phase.Untouched? ==> Dispatches(entity, phase, runs) == 0
    decreases |runs|
  {
    if runs != [] {
      var next := Apply(entity, phase, runs[0]);
      if phase.Untouched? && !next.Untouched? {
        NeverUntouchedAgain(entity, next, runs[1..]);
      } else {
        DispatchedAtMostOnce(entity, next, runs[1..]);
      }
    }
  }

  lemma {:induction false} NeverUntouchedAgain(entity: EntityFacts, phase: Phase, runs: seq<SystemRun>)
    requires IndexedPhase(phase, |entity.infos|) && !phase.Untouched?
    ensures Dispatches(entity, phase, runs) == 0
    ensures Run(entity, phase, runs) != Untouched
    decreases |runs|
  {
    if runs != [] {
      NeverUntouchedAgain(entity, Apply(entity, phase, runs[0]), runs[1..]);
    }
  }

  /**
   * Resolutions never revert: an entry that is `Ok` keeps its material for
   * as long as the entity stays in processing.
   */
  lemma {:induction false} ResolutionsPersist(entity: EntityFacts, phase: Phase, runs: seq<SystemRun>, i: nat)
    requires IndexedPhase(phase, |entity.infos|)
    requires phase.Processing? && i in phase.materials && phase.materials[i].Ok?
    ensures Run(entity, phase, runs).Processing? ==>
              i in Run(entity, phase, runs).materials && Run(entity, phase, runs).materials[i] == phase.materials[i]
    decreases |runs|
  {
    if runs != [] {
      var next := Apply(entity, phase, runs[0]);
      if runs[0].RunReconcile? && runs[0].hasChildren {
        AdvanceMonotone(entity.infos, phase.materials, runs[0].gltfs);
      }
      if next.Processed? {
        ProcessedIsFinal(entity, next, runs[1..]);
      } else {
        ResolutionsPersist(entity, next, runs[1..], i);
      }
    }
  }

  /**
   * A reference whose file does not show up with its material stays
   * pending for as long as that lasts: the entity does not leave processing
   * and nothing is reported.
   */
  lemma {:induction false} MissingMaterialStalls(entity: EntityFacts, phase: Phase, runs: seq<SystemRun>, i: nat)
    requires IndexedPhase(phase, |entity.infos|)
    requires phase.Processing? && i in phase.materials && phase.materials[i].Err?
    requires forall k :: 0 <= k < |runs| && runs[k].RunReconcile? ==>
               var handle := phase.materials[i].gltf;
               handle !in runs[k].gltfs || entity.infos[i].name !in runs[k].gltfs[handle]
    ensures Run(entity, phase, runs).Processing?
    ensures i in Run(entity, phase, runs).materials && Run(entity, phase, runs).materials[i] == phase.materials[i]
    decreases |runs|
  {
    if runs != [] {
      var next := Apply(entity, phase, runs[0]);
      if runs[0].RunReconcile? && runs[0].hasChildren {
        var advanced := Advanced(entity.infos, phase.materials, runs[0].gltfs);
        assert advanced[i] == phase.materials[i];
        assert next == Processing(advanced);
      }
      assert forall k :: 0 <= k < |runs| - 1 ==> runs[1..][k] == runs[k + 1];
      MissingMaterialStalls(entity, next, runs[1..], i);
    }
  }

  /**
   * `inject_materials` passes over an entity without a `Children`
   * component: for as long as no run sees one, a processing entity keeps its
   * map as it is and none of its pending files is looked at.
   */
  lemma {:induction false} ChildlessEntityWaits(entity: EntityFacts, phase: Phase, runs: seq<SystemRun>)
    requires IndexedPhase(phase, |entity.infos|) && phase.Processing?
    requires forall k :: 0 <= k < |runs| && runs[k].RunReconcile? ==> !runs[k].hasChildren
    ensures Run(entity, phase, runs) == phase
    decreases |runs|
  {
    if runs != [] {
      assert forall k :: 0 <= k < |runs| - 1 ==> runs[1..][k] == runs[k + 1];
      ChildlessEntityWaits(entity, Apply(entity, phase, runs[0]), runs[1..]);
    }
  }

  /**
   * Two references into one file, neither cached: dispatch waits on the
   * file for both; once the file is available one reconcile finishes the
   * entity, the qualifying child at position 0 receives the first material
   * and the one at position 1 the second.
   */
  lemma TwoReferencesScenario(handleOf: string -> GltfHandle, current: Material)
    ensures var red, blue := MaterialInfo("MatRed", "scene.glb"), MaterialInfo("MatBlue", "scene.glb");
            var file := handleOf("scene.glb");
            var gltfs := map[file := map["MatRed" := Material(1), "MatBlue" := Material(2)]];
            var dispatched := DispatchPhase([red, blue], Untouched, map[], handleOf);
            && dispatched == Processing(map[0 := Err(file), 1 := Err(file)])
            && ReconcilePhase([red, blue], true, dispatched, gltfs) == Processed
            && ChildAfter([red, blue], true, dispatched, gltfs, 0, true, true, Some(current)) == Some(Material(1))
            && ChildAfter([red, blue], true, dispatched, gltfs, 1, true, true, Some(current)) == Some(Material(2))
            && ChildAfter([red, blue], true, dispatched, gltfs, 2, true, true, Some(current)) == Some(current)
            && ChildAfter([red, blue], true, dispatched, gltfs, 1, true, false, None) == None
  {
  }
}
