/**
 * The one-shot system `setup_scene_after_load` of src/main.rs: once the scene is
 * loaded it sets its `Local<bool>` flag, gives up for good if some mesh has no
 * bounding box yet, and otherwise spawns a camera, a directional light when the scene
 * brought none, and the grid. The bounding box it folds over the meshes is not used
 * afterwards and is not modelled; each mesh is only asked whether it has an `Aabb`.
 */
module SceneSetup {
  import opened SceneViewer

  /** The entities the system asks the engine to spawn, in order. */
  datatype SpawnCommand =
    | SpawnCamera
    | SpawnDirectionalLight(shadowsEnabled: bool)
    | SpawnGrid

  /** The system's own flag and the handle's `has_light`: all it writes. */
  datatype SetupState = SetupState(setup: bool, hasLight: bool)

  /** What one frame shows the system: whether the scene is loaded, and per mesh whether it has an `Aabb`. */
  datatype Frame = Frame(isLoaded: bool, meshHasAabb: seq<bool>)

  /** One call of `setup_scene_after_load` (src/main.rs:119-189). */
  function SetupStep(s: SetupState, f: Frame): (r: (SetupState, seq<SpawnCommand>))
    ensures r.0.setup == (s.setup || f.isLoaded)
    ensures s.hasLight ==> r.0.hasLight
    ensures r.1 != [] ==> f.isLoaded && !s.setup && false !in f.meshHasAabb
  {
    if f.isLoaded && !s.setup then
      if false in f.meshHasAabb then (s.(setup := true), [])
      else if !s.hasLight then (SetupState(true, true), [SpawnCamera, SpawnDirectionalLight(false), SpawnGrid])
      else (s.(setup := true), [SpawnCamera, SpawnGrid])
    else
      (s, [])
  }

  /** The state and every spawn command after a run of frames. */
  function RunFrames(s: SetupState, frames: seq<Frame>): (SetupState, seq<SpawnCommand>)
    decreases |frames|
  {
    if |frames| == 0 then (s, [])
    else
      var (s1, c1) := SetupStep(s, frames[0]);
      var (s2, c2) := RunFrames(s1, frames[1..]);
      (s2, c1 + c2)
  }

  function CountCameras(cmds: seq<SpawnCommand>): nat
  {
    multiset(cmds)[SpawnCamera]
  }

  function CountGrids(cmds: seq<SpawnCommand>): nat
  {
    multiset(cmds)[SpawnGrid]
  }

  function CountLights(cmds: seq<SpawnCommand>): nat
  {
    multiset(cmds)[SpawnDirectionalLight(false)]
  }

  /**
   * The body runs once: the first loaded frame sets the flag, before the early return
   * for a mesh without bounds, and from then on every call changes nothing.
   */
  lemma SetupStepSetsFlag(s: SetupState, f: Frame)
    ensures f.isLoaded ==> SetupStep(s, f).0.setup
    ensures s.setup ==> SetupStep(s, f) == (s, [])
    ensures !f.isLoaded ==> SetupStep(s, f) == (s, [])
  {
  }

  /**
   * A light is spawned exactly when the body runs to completion on a scene without a
   * light, and `has_light` holds afterwards; it never becomes false.
   */
  lemma SetupStepLight(s: SetupState, f: Frame)
    ensures SpawnDirectionalLight(false) in SetupStep(s, f).1 <==>
              f.isLoaded && !s.setup && false !in f.meshHasAabb && !s.hasLight
    ensures SpawnDirectionalLight(false) in SetupStep(s, f).1 ==> SetupStep(s, f).0.hasLight
    ensures s.hasLight ==> SetupStep(s, f).0.hasLight
  {
  }

  /** Once the flag is set, no run of frames does anything. */
  lemma {:induction false} SetupFlagIsFinal(s: SetupState, frames: seq<Frame>)
    requires s.setup
    ensures RunFrames(s, frames) == (s, [])
    decreases |frames|
  {
    if |frames| > 0 {
      var none: seq<SpawnCommand> := [];
      assert SetupStep(s, frames[0]) == (s, none);
      SetupFlagIsFinal(s, frames[1..]);
      assert none + none == none;
    }
  }

  /**
   * One step that runs the body to completion spawns exactly one camera and one grid,
   * and one light exactly when the scene has none, and nothing else; any other step
   * spawns nothing.
   * `has_light` changes only together with the light, a step that spawns anything sets
   * the flag, and the flag is never cleared.
   */
  lemma SetupStepCounts(s: SetupState, f: Frame)
    ensures var (s1, c1) := SetupStep(s, f);
            var completes := f.isLoaded && !s.setup && false !in f.meshHasAabb;
            CountCameras(c1) == (if completes then 1 else 0)
            && CountGrids(c1) == (if completes then 1 else 0)
            && CountLights(c1) == (if completes && !s.hasLight then 1 else 0)
            && |c1| == CountCameras(c1) + CountGrids(c1) + CountLights(c1)
            && s1.hasLight == (s.hasLight || CountLights(c1) == 1)
            && (c1 != [] ==> s1.setup)
            && (s.setup ==> s1.setup)
  {
  }

  /**
   * Over any run of frames at most one camera and at most one light are spawned, none
   * once the flag is set, and no light when the scene already had one.
   */
  lemma {:induction false} SetupAtMostOnce(s: SetupState, frames: seq<Frame>)
    ensures CountCameras(RunFrames(s, frames).1) <= (if s.setup then 0 else 1)
    ensures CountLights(RunFrames(s, frames).1) <= (if s.setup || s.hasLight then 0 else 1)
    decreases |frames|
  {
    if |frames| > 0 {
      var (s1, c1) := SetupStep(s, frames[0]);
      var c2 := RunFrames(s1, frames[1..]).1;
      assert RunFrames(s, frames).1 == c1 + c2;
      assert multiset(c1 + c2) == multiset(c1) + multiset(c2);
      SetupStepCounts(s, frames[0]);
      if c1 == [] {
        SetupAtMostOnce(s1, frames[1..]);
      } else {
        SetupFlagIsFinal(s1, frames[1..]);
      }
    }
  }

  /** The system's `Local<bool>` flag. */
  class SetupSceneAfterLoad {
    var setup: bool

    constructor ()
      ensures !setup
    {
      setup := false;
    }

    /** One call of the system, returning what it spawns. */
    method Run(handle: SceneHandle, meshHasAabb: seq<bool>) returns (commands: seq<SpawnCommand>)
      modifies this, handle`hasLight
      ensures (SetupState(setup, handle.hasLight), commands)
              == SetupStep(SetupState(old(setup), old(handle.hasLight)), Frame(handle.isLoaded, meshHasAabb))
    {
      commands := [];
      ghost var before := SetupState(setup, handle.hasLight);
      if handle.isLoaded && !setup {
        setup := true;
        if false in meshHasAabb {
          return;
        }
        commands := commands + [SpawnCamera];
        if !handle.hasLight {
          commands := commands + [SpawnDirectionalLight(false)];
          handle.hasLight := true;
        }
        commands := commands + [SpawnGrid];
        assert commands == SetupStep(before, Frame(handle.isLoaded, meshHasAabb)).1;
      }
    }
  }
}
