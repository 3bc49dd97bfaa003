/**
 * The glTF scene viewer of src/scene_viewer_plugin.rs: the `SceneHandle` resource and
 * its load state machine (no instance, then spawned, then loaded), and the key toggles
 * for bounding boxes, shadows and light animation. What the engine answers (load
 * state, assets, the spawner) is passed in as a `LoadEnv` each frame.
 */
module SceneViewer {
  import opened Wrappers
  import opened Input

  type GltfId = nat
  type SceneId = nat
  type InstanceId = nat

  /** A loaded glTF asset: the handles of its scenes, in file order. */
  datatype Gltf = Gltf(scenes: seq<SceneId>)

  /** The light components one entity of a scene's world carries. */
  datatype SceneEntity = SceneEntity(hasDirectionalLight: bool, hasPointLight: bool)

  /** What `scene_load_check` asks the engine during one frame. */
  datatype LoadEnv = LoadEnv(
    assetLoaded: bool,                            // load_state(gltf_handle) == Loaded
    gltf: Option<Gltf>,                           // gltf_assets.get(gltf_handle)
    sceneWorlds: map<SceneId, seq<SceneEntity>>,  // scenes.get_mut(scene)
    spawnedInstance: InstanceId,                  // what scene_spawner.spawn returns
    instanceReady: bool)                          // scene_spawner.instance_is_ready(id)

  /** The three panic sites of `scene_load_check`: two `unwrap`s and the `unwrap_or_else(panic!)`. */
  datatype PanicReason =
    | GltfMissing
    | SceneIndexOutOfRange(index: nat, sceneCount: nat)
    | SceneAssetMissing(scene: SceneId)

  /** Which branch one call of `scene_load_check` took. */
  datatype LoadStep =
    | AssetPending
    | SpawnedScene(scene: SceneId)
    | InstancePending
    | InstanceReady
    | AlreadyLoaded
    | Panicked(reason: PanicReason)

  /** The fields of `SceneHandle` that the load check reads and writes. */
  datatype HandleState = HandleState(sceneIndex: nat, instanceId: Option<InstanceId>, isLoaded: bool, hasLight: bool)

  /** A scene counts as loaded only once it has been spawned. */
  predicate Inv(s: HandleState) {
    s.isLoaded ==> s.instanceId.Some?
  }

  /** Some entity of the world carries a directional or a point light. */
  predicate HasLight(world: seq<SceneEntity>) {
    exists i :: 0 <= i < |world| && (world[i].hasDirectionalLight || world[i].hasPointLight)
  }

  /**
   * One call of `scene_load_check` (src/scene_viewer_plugin.rs:81-136). A panic
   * leaves the handle as it was; it never resets `isLoaded`, never replaces an
   * instance once there is one, and loads only what has been spawned.
   */
  function LoadCheck(s: HandleState, env: LoadEnv): (r: (HandleState, LoadStep))
    ensures r.0.sceneIndex == s.sceneIndex
    ensures Inv(s) ==> Inv(r.0)
    ensures s.isLoaded ==> r.0.isLoaded
    ensures s.instanceId.Some? ==> r.0.instanceId == s.instanceId && r.0.hasLight == s.hasLight
    ensures r.0.isLoaded && !s.isLoaded ==> s.instanceId.Some? && r.1 == InstanceReady
    ensures r.1.Panicked? ==> r.0 == s && s.instanceId.None? && env.assetLoaded
  {
    match s.instanceId
    case None =>
      if !env.assetLoaded then (s, AssetPending)
      else
        (match env.gltf
         case None => (s, Panicked(GltfMissing))
         case Some(gltf) =>
           if s.sceneIndex >= |gltf.scenes| then
             (s, Panicked(SceneIndexOutOfRange(s.sceneIndex, |gltf.scenes|)))
           else
             var scene := gltf.scenes[s.sceneIndex];
             if scene !in env.sceneWorlds then (s, Panicked(SceneAssetMissing(scene)))
             else
               (s.(hasLight := HasLight(env.sceneWorlds[scene]), instanceId := Some(env.spawnedInstance)),
                SpawnedScene(scene)))
    case Some(_) =>
      if !s.isLoaded then
        if env.instanceReady then (s.(isLoaded := true), InstanceReady) else (s, InstancePending)
      else
        (s, AlreadyLoaded)
  }

  /** The handle after a run of frames; a panic stops the application. */
  function LoadTrace(s: HandleState, envs: seq<LoadEnv>): HandleState
    decreases |envs|
  {
    if |envs| == 0 then s
    else
      var (s', step) := LoadCheck(s, envs[0]);
      if step.Panicked? then s' else LoadTrace(s', envs[1..])
  }

  /** A new handle: nothing spawned, nothing loaded, no light known. */
  function NewHandle(sceneIndex: nat): (s: HandleState)
    ensures Inv(s) && s.sceneIndex == sceneIndex
    ensures s.instanceId.None? && !s.isLoaded && !s.hasLight
  {
    HandleState(sceneIndex, None, false, false)
  }

  /** Before the asset is loaded the check changes nothing. */
  lemma LoadCheckWaitsForAsset(s: HandleState, env: LoadEnv)
    requires s.instanceId.None? && !env.assetLoaded
    ensures LoadCheck(s, env) == (s, AssetPending)
  {
  }

  /** With the asset loaded but no glTF behind the handle, the first `unwrap` panics. */
  lemma LoadCheckGltfMissing(s: HandleState, env: LoadEnv)
    requires s.instanceId.None? && env.assetLoaded && env.gltf.None?
    ensures LoadCheck(s, env) == (s, Panicked(GltfMissing))
  {
  }

  /**
   * With the asset loaded: an index out of range panics, an in-range scene whose asset
   * is missing panics, and an in-range scene whose asset exists is spawned, with
   * `hasLight` recording whether it brings its own light.
   */
  lemma LoadCheckSpawns(s: HandleState, env: LoadEnv, gltf: Gltf)
    requires s.instanceId.None? && env.assetLoaded && env.gltf == Some(gltf)
    ensures s.sceneIndex >= |gltf.scenes| ==>
              LoadCheck(s, env) == (s, Panicked(SceneIndexOutOfRange(s.sceneIndex, |gltf.scenes|)))
    ensures s.sceneIndex < |gltf.scenes| && gltf.scenes[s.sceneIndex] !in env.sceneWorlds ==>
              LoadCheck(s, env) == (s, Panicked(SceneAssetMissing(gltf.scenes[s.sceneIndex])))
    ensures s.sceneIndex < |gltf.scenes| && gltf.scenes[s.sceneIndex] in env.sceneWorlds ==>
              var (r, step) := LoadCheck(s, env);
              step == SpawnedScene(gltf.scenes[s.sceneIndex])
              && r.instanceId == Some(env.spawnedInstance) && r.isLoaded == s.isLoaded
              && r.hasLight == HasLight(env.sceneWorlds[gltf.scenes[s.sceneIndex]])
  {
  }

  /** With an instance and not yet loaded, `isLoaded` becomes the readiness of the instance. */
  lemma LoadCheckWaitsForInstance(s: HandleState, env: LoadEnv)
    requires s.instanceId.Some? && !s.isLoaded
    ensures LoadCheck(s, env).0 == s.(isLoaded := env.instanceReady)
  {
  }

  /** Once loaded, every later run of frames leaves the handle as it is. */
  lemma {:induction false} LoadedIsFinal(s: HandleState, envs: seq<LoadEnv>)
    requires Inv(s) && s.isLoaded
    ensures LoadTrace(s, envs) == s
  {
    if |envs| > 0 {
      LoadedIsFinal(s, envs[1..]);
    }
  }

  /**
   * Over any run of frames the invariant holds, `isLoaded` is never reset, the scene
   * index never changes, and an instance once spawned is never replaced.
   */
  lemma {:induction false} LoadTraceMonotone(s: HandleState, envs: seq<LoadEnv>)
    requires Inv(s)
    ensures var t := LoadTrace(s, envs);
            Inv(t) && t.sceneIndex == s.sceneIndex && (s.isLoaded ==> t.isLoaded)
            && (s.instanceId.Some? ==> t.instanceId == s.instanceId)
    decreases |envs|
  {
    if |envs| > 0 {
      var (s', step) := LoadCheck(s, envs[0]);
      if !step.Panicked? {
        LoadTraceMonotone(s', envs[1..]);
      }
    }
  }

  /** The `SceneHandle` resource. */
  class SceneHandle {
    const gltfHandle: GltfId
    const sceneIndex: nat
    var instanceId: Option<InstanceId>
    var isLoaded: bool
    var hasLight: bool

    ghost predicate Valid()
      reads this
    {
      Inv(State())
    }

    function State(): HandleState
      reads this
    {
      HandleState(sceneIndex, instanceId, isLoaded, hasLight)
    }

    /** `SceneHandle::new` (src/scene_viewer_plugin.rs:24-32). */
    constructor (gltfHandle: GltfId, sceneIndex: nat)
      ensures Valid() && this.gltfHandle == gltfHandle
      ensures State() == NewHandle(sceneIndex)
    {
      this.gltfHandle := gltfHandle;
      this.sceneIndex := sceneIndex;
      instanceId := None;
      isLoaded := false;
      hasLight := false;
    }

    /** `scene_load_check`: one frame of the load state machine. */
    method SceneLoadCheck(env: LoadEnv) returns (step: LoadStep)
      requires Valid()
      modifies this
      ensures Valid()
      ensures (State(), step) == LoadCheck(old(State()), env)
    {
      match instanceId
      case None =>
        if env.assetLoaded {
          if env.gltf.None? {
            return Panicked(GltfMissing);
          }
          var gltf := env.gltf.value;
          if sceneIndex >= |gltf.scenes| {
            return Panicked(SceneIndexOutOfRange(sceneIndex, |gltf.scenes|));
          }
          var scene := gltf.scenes[sceneIndex];
          if scene !in env.sceneWorlds {
            return Panicked(SceneAssetMissing(scene));
          }
          hasLight := HasLight(env.sceneWorlds[scene]);
          instanceId := Some(env.spawnedInstance);
          step := SpawnedScene(scene);
        } else {
          step := AssetPending;
        }
      case Some(_) =>
        if !isLoaded {
          if env.instanceReady {
            isLoaded := true;
            step := InstanceReady;
          } else {
            step := InstancePending;
          }
        } else {
          step := AlreadyLoaded;
        }
    }
  }

  /** The part of the engine's gizmo configuration that the viewer toggles. */
  class GizmoConfig {
    var aabbDrawAll: bool

    constructor (aabbDrawAll: bool)
      ensures this.aabbDrawAll == aabbDrawAll
    {
      this.aabbDrawAll := aabbDrawAll;
    }

    /** `toggle_bounding_boxes` (src/scene_viewer_plugin.rs:77-79). */
    method ToggleBoundingBoxes()
      modifies this
      ensures aabbDrawAll == !old(aabbDrawAll)
    {
      aabbDrawAll := !aabbDrawAll;
    }
  }

  /** Pressing the bounding-box key twice restores the original setting. */
  method ToggleBoundingBoxesTwice(config: GizmoConfig)
    modifies config
    ensures config.aabbDrawAll == old(config.aabbDrawAll)
  {
    config.ToggleBoundingBoxes();
    config.ToggleBoundingBoxes();
  }

  /** A directional light component of the world. */
  class DirectionalLight {
    var shadowsEnabled: bool

    constructor ()
      ensures !shadowsEnabled
    {
      shadowsEnabled := false;
    }
  }

  /** The `update_lights` system, owning its `Local<bool>` animation flag. */
  class LightControls {
    var animateDirectionalLight: bool

    constructor ()
      ensures !animateDirectionalLight
    {
      animateDirectionalLight := false;
    }

    /**
     * `update_lights` (src/scene_viewer_plugin.rs:137-162): `U` flips the shadows of
     * every directional light, `L` flips the animation flag, nothing else changes.
     */
    method UpdateLights(justPressed: set<KeyCode>, lights: seq<DirectionalLight>)
      requires forall i, j :: 0 <= i < j < |lights| ==> lights[i] != lights[j]
      modifies this, set i | 0 <= i < |lights| :: lights[i]
      ensures forall i :: 0 <= i < |lights| ==>
                lights[i].shadowsEnabled == (if KeyU in justPressed then !old(lights[i].shadowsEnabled)
                                             else old(lights[i].shadowsEnabled))
      ensures animateDirectionalLight == (if KeyL in justPressed then !old(animateDirectionalLight)
                                          else old(animateDirectionalLight))
    {
      for k := 0 to |lights|
        invariant forall i :: 0 <= i < k ==>
                    lights[i].shadowsEnabled == (if KeyU in justPressed then !old(lights[i].shadowsEnabled)
                                                 else old(lights[i].shadowsEnabled))
        invariant forall i :: k <= i < |lights| ==> lights[i].shadowsEnabled == old(lights[i].shadowsEnabled)
        invariant animateDirectionalLight == old(animateDirectionalLight)
      {
        if KeyU in justPressed {
          lights[k].shadowsEnabled := !lights[k].shadowsEnabled;
        }
      }
      if KeyL in justPressed {
        animateDirectionalLight := !animateDirectionalLight;
      }
    }
  }
}
