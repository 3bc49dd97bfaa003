# Digital-twin playground: a Dafny model of its own logic

The application builds a rotary inverted pendulum in a physics engine and lets the user
drive its motorised joint from the keyboard. It can also load a glTF scene and show it.
Almost everything it does is a call into the engine. This project models the parts that
are the application's own logic:

- **Scene path parsing** (`ScenePath`, src/main.rs). A path may end in `#Scene<N>`. The
  parser splits on `#` and checks only the last piece. When that piece is `Scene`
  followed by a `usize`, the result is the rest of the path and `N`. Otherwise it is the
  whole path with scene 0. `str::split`, `join`, `split_last`, `strip_prefix` and
  `usize::from_str` are written out as functions. The `usize` parse takes an optional `+`,
  then one or more ASCII digits, and the value must be below 2^64.
- **The one-shot setup after loading** (`SceneSetup`, src/main.rs). This covers the
  `Local<bool>` flag, the early return when some mesh has no bounding box, and spawning
  the camera, the default directional light (only when the scene has none) and the grid.
  The class method is tied to a step function. Lemmas over runs of frames show that the
  body runs at most once.
- **The scene viewer** (`SceneViewer`, src/scene_viewer_plugin.rs). The `SceneHandle`
  load state machine goes from no instance, to spawned, to loaded. The engine's answers
  are frame inputs. Its three panic sites (two `unwrap`s and the `unwrap_or_else(panic!)` on the scene index) are explicit outcomes that leave the handle
  unchanged. This module also has the bounding-box toggle and the shadow and animation
  toggles of `update_lights`.
- **The embedded model** (`EmbeddedModel`, src/embedded_model.rs). This covers the
  `Motor` resource, the table of which entity carries which joint (from the scene
  builder), the key-to-motor-command selection in fixed priority, `control_motor` with
  its two `unwrap` panics as outcomes, and the name scan of `get_pendulum_state`.
  `KeyBindings` and its default come from src/config_plugin.rs (module `Config`).

The two systems whose steps are modelled as state machines, `SceneHandle.SceneLoadCheck`
and `SetupSceneAfterLoad.Run`, have an `ensures` saying that the new state equals a pure
step function of the old state, and the properties are proved about those step functions
and about runs of them. The other methods (the toggles, `SetMotor`, the scene builder and
`ControlMotor`) state their new state directly, `ControlMotor` through the decision
function `ControlDecision`.

The setup system sets its flag before the early return for a mesh without an `Aabb`
(src/main.rs:127-132), so such a frame ends the setup for good: the camera, light and grid
are then never spawned. `SetupStepSetsFlag` and `SetupFlagIsFinal` state this.

## Model

| member | source | states |
|---|---|---|
| ScenePath.Split | src/main.rs:73 | `str::split`: always at least one piece, and no piece contains the separator |
| ScenePath.SplitLast | src/main.rs:74 | `split_last` succeeds exactly on a non-empty list; the front followed by the last element is the list |
| ScenePath.StripPrefix | src/main.rs:76 | succeeds exactly when the prefix is a prefix; the prefix followed by the result is the input |
| ScenePath.Join | src/main.rs:79 | the first piece starts the result, and with two or more pieces a separator follows it |
| ScenePath.ParseUsize | src/main.rs:77 | an accepted string is an optional `+` followed by one or more ASCII digits, and the value is what those digits denote, below 2^64 |
| ScenePath.SceneIndex | src/main.rs:75-77 | a piece starting with `Scene` selects exactly what the `usize` parse of the rest gives (so `Scene007` and `Scene+7` select 7); any other piece selects nothing |
| ScenePath.JoinSplit | src/main.rs:73-79 | joining the pieces of a split with the same separator gives back the string |
| ScenePath.SplitJoin | src/main.rs:73-79 | splitting the join of separator-free pieces gives back the pieces (with `JoinSplit`, `split` and `join` are inverse) |
| ScenePath.SplitSnoc | src/main.rs:73-74 | splitting `a#b` with no `#` in `b` gives the pieces of `a` followed by `b` |
| ScenePath.SplitCons | src/main.rs:73 | splitting `a#c` with no `#` in `a` gives `a` followed by the pieces of `c` |
| ScenePath.DecimalValueOfDigits | src/main.rs:77 | the decimal digits of `n`, read back, give `n` |
| ScenePath.ParseUsizeOfDigits | src/main.rs:77 | the decimal digits of `n` parse to `n` exactly when `n < 2^64`; otherwise they are rejected |
| ScenePath.ParseUsizeOfSignedDigits | src/main.rs:77 | a leading `+` is accepted with the same result |
| ScenePath.ParseUsizeRejectsNonDigit | src/main.rs:77 | any character that is not a digit, other than a leading `+`, makes the parse fail (`1a` is rejected) |
| ScenePath.DecimalValueLeadingZero | src/main.rs:77 | a leading zero does not change the value a digit string denotes |
| ScenePath.ParseUsizeLeadingZero | src/main.rs:77 | a leading zero is accepted and ignored (`007` parses to 7) |
| ScenePath.ParseScene | src/main.rs:71-84 | `_parse_scene`: a path without `#` is returned with scene 0; a non-zero scene needs a `#` and fits in a `usize` (the full behaviour is stated by the lemmas below) |
| ScenePath.ParseSceneWithoutSeparator | src/main.rs:72-83 | a path with no `#` is returned unchanged with scene 0 |
| ScenePath.ParseSceneLastPiece | src/main.rs:73-83 | for `p#t` with no `#` in `t`: if `t` selects scene `n` the result is `(p, n)`, earlier `#` and `Scene<K>` pieces of `p` included; otherwise `(p#t, 0)` |
| ScenePath.ParseSceneByLastSeparator | src/main.rs:71-84 | an independent statement of the parser: split at the last `#`, take the scene from what follows it and the path from what precedes it |
| ScenePath.ParseScenePathIsPrefix | src/main.rs:73-83 | the returned path is a prefix of the input; when it is shorter, it is the input up to the last `#` and the index is what the last piece selects; when it is the whole input, the index is 0 |
| ScenePath.ParseSceneRoundTrip | src/main.rs:73-79 | for any path `p` and `n < 2^64`, parsing `p#Scene<n>` gives `(p, n)` |
| ScenePath.ParseSceneOverflow | src/main.rs:75-83 | an index of 2^64 or more selects nothing: the input is returned with scene 0 |
| ScenePath.ParseSceneRejectsLastPiece | src/main.rs:75-83 | a last piece that does not start with `Scene`, or whose remainder is not a `usize` (empty, non-numeric, overflowing), gives `(input, 0)` |
| SceneSetup.SetupStep | src/main.rs:127-188 | one call sets the flag exactly when the scene is loaded or the flag was set; never clears `has_light`; spawns something only on the first loaded frame when every mesh has an `Aabb` |
| SceneSetup.SetupSceneAfterLoad.constructor | src/main.rs:122 | the `Local<bool>` flag starts false |
| SceneSetup.SetupSceneAfterLoad.Run | src/main.rs:119-189 | the new flag, the new `has_light` and the spawned entities are those of one step |
| SceneSetup.SetupStepSetsFlag | src/main.rs:127-132 | any loaded frame sets the flag, even when the step returns early; with the flag set, or before loading, a step does nothing |
| SceneSetup.SetupStepLight | src/main.rs:167-179 | a light is spawned if and only if the body runs to completion and `has_light` is false; afterwards `has_light` is true, and it never goes back to false |
| SceneSetup.SetupFlagIsFinal | src/main.rs:127-132 | once the flag is set, no run of frames spawns or changes anything |
| SceneSetup.SetupStepCounts | src/main.rs:127-188 | a step that runs the body to completion spawns exactly one camera and one grid, one light exactly when the scene has none, and nothing else; any other step spawns nothing; `has_light` changes only together with the light; a step that spawns anything sets the flag, which is never cleared |
| SceneSetup.SetupAtMostOnce | src/main.rs:127-179 | over any run of frames at most one camera and at most one light are spawned; none once the flag is set; no light when the scene already has one |
| SceneViewer.NewHandle | src/scene_viewer_plugin.rs:24-32 | a new handle has no instance, is not loaded, has no light, keeps its scene index, and satisfies the invariant |
| SceneViewer.SceneHandle.constructor | src/scene_viewer_plugin.rs:24-32 | `SceneHandle::new` gives that state with the given asset handle |
| SceneViewer.LoadCheck | src/scene_viewer_plugin.rs:81-136 | keeps the scene index and the invariant (loaded implies spawned); never resets `is_loaded`; never replaces an instance or its `has_light`; sets `is_loaded` only on a spawned instance; a panic leaves the handle as it was |
| SceneViewer.SceneHandle.SceneLoadCheck | src/scene_viewer_plugin.rs:81-136 | the handle's new state and the branch taken are those of `LoadCheck` |
| SceneViewer.LoadCheckWaitsForAsset | src/scene_viewer_plugin.rs:88-90 | with no instance and the asset not loaded, nothing changes |
| SceneViewer.LoadCheckSpawns | src/scene_viewer_plugin.rs:90-123 | with the asset loaded: an out-of-range scene index panics; an in-range scene whose asset is missing panics; an in-range scene whose asset exists is spawned, and `has_light` records whether some entity of the scene has a directional or point light |
| SceneViewer.LoadCheckGltfMissing | src/scene_viewer_plugin.rs:90-91 | with the asset loaded but no glTF behind the handle, the check panics and the handle is unchanged |
| SceneViewer.LoadCheckWaitsForInstance | src/scene_viewer_plugin.rs:128-133 | with an instance and not yet loaded, `is_loaded` becomes whether the instance is ready, and nothing else changes |
| SceneViewer.LoadedIsFinal | src/scene_viewer_plugin.rs:128-134 | once loaded, every later run of frames leaves the handle unchanged |
| SceneViewer.LoadTraceMonotone | src/scene_viewer_plugin.rs:88-135 | over any run of frames the invariant holds, the scene index is kept, `is_loaded` is never reset and an instance is never replaced |
| SceneViewer.GizmoConfig.ToggleBoundingBoxes | src/scene_viewer_plugin.rs:77-79 | `draw_all` is flipped |
| SceneViewer.ToggleBoundingBoxesTwice | src/scene_viewer_plugin.rs:77-79 | toggling twice restores the original value |
| SceneViewer.LightControls.constructor | src/scene_viewer_plugin.rs:141 | the animation flag starts false |
| SceneViewer.LightControls.UpdateLights | src/scene_viewer_plugin.rs:137-151 | `U` flips `shadows_enabled` on every directional light and otherwise leaves them; `L` flips the animation flag and otherwise leaves it |
| EmbeddedModel.Motor.constructor | src/embedded_model.rs:30-34 | the motor resource starts with no joint entity |
| EmbeddedModel.PendulumJoints | src/embedded_model.rs:86-242 | the joints sit on ground, `cube_1`, `cylinder_1`, `cube_2`, `cube_3` and `cylinder_3` |
| EmbeddedModel.PendulumJointKinds | src/embedded_model.rs:110-208 | with distinct bodies, `cylinder_2` carries no joint, and the two revolute joints are on `cube_1` (parent `cylinder_1`) and `cube_3` (parent `cylinder_2`) |
| EmbeddedModel.AddRotaryInvertedPendulum | src/embedded_model.rs:83-242 | the builder registers `cube_1` as the motor's joint entity and creates exactly the joint table of the pendulum (which entity carries which joint kind, to which parent), each joint a fresh component; the kinds of the joints it returns are exactly the kinds of that table, the map `ControlMotor` is decided on |
| EmbeddedModel.ImpulseJoint.SetMotor | src/embedded_model.rs:258-263 | the joint's motor takes the commanded velocity and factor |
| EmbeddedModel.FirstPressed | src/embedded_model.rs:257-279 | reference for priority order: nothing exactly when no listed key was pressed; otherwise the command of a pressed key with no pressed key before it |
| EmbeddedModel.SelectCommand | src/embedded_model.rs:254-279 | every command carries factor 10000 |
| EmbeddedModel.SelectCommandIsFirstPressed | src/embedded_model.rs:257-279 | the chosen command is that of the first pressed key in the order clockwise, counter-clockwise, `ArrowDown` |
| EmbeddedModel.SelectCommandCases | src/embedded_model.rs:254-279 | clockwise gives (+10, 10000); counter-clockwise without clockwise gives (-10, 10000); `ArrowDown` alone gives (0, 10000); with none of the three there is no command |
| EmbeddedModel.DefaultBindingsCommands | src/config_plugin.rs:35-38 | with the default bindings and any set of keys: left arrow turns clockwise and beats the others; right arrow without left turns counter-clockwise; `ArrowDown` alone among the three stops; with none of the three there is no command |
| EmbeddedModel.ControlDecision | src/embedded_model.rs:252-284 | a warning exactly when there is no joint entity; a missing joint panics whatever keys are pressed; nothing happens exactly when the joint exists and no bound key was pressed; a present non-revolute joint panics exactly when a key selects a command; a selected command on the registered revolute joint sets its motor to that command, and a motor is set only then |
| EmbeddedModel.BuiltPendulumNeverPanics | src/embedded_model.rs:110-119 | in the scene the builder makes, control never panics: with no bound key pressed nothing happens, otherwise `cube_1`'s motor is set to the selected command |
| EmbeddedModel.ControlMotor | src/embedded_model.rs:246-285 | the outcome is `ControlDecision`, so a bound key on the registered revolute joint writes that joint's motor; only that joint's motor is written, and every other joint is unchanged |
| EmbeddedModel.LastNamed | src/embedded_model.rs:291-297 | nothing exactly when no entry has the name; otherwise the value of an entry with that name that no later entry with the name follows |
| EmbeddedModel.GetPendulumState | src/embedded_model.rs:287-311 | the pair is found if and only if both `cube_3` and `cylinder_2` occur; when found, each is the last transform seen with its name; otherwise the not-found branch is taken without a panic |

## Left out

- Physics, rendering and assets are engine calls and are not modelled. This covers rigid bodies, colliders, meshes, materials, cameras, environment maps and the infinite grid. Of the scene builder, only the joint table and the motor registration are modelled. Body shapes, poses, masses, locked axes and joint anchors are not. No geometric property is claimed.
- Floating-point and quaternion math is not modelled. This covers the relative rotation and its `to_axis_angle` in `get_pendulum_state`, the Euler light rotation applied while the animation flag is on in `update_lights`, and the sphere/Aabb min-max fold in `setup_scene_after_load`. The fold's result is never used afterwards, and only each mesh's having an `Aabb` affects control flow.
- EmbeddedModel.GetPendulumState: transforms are an opaque type parameter, and the printed angle is not modelled; the contract covers the found / not-found decision and which transforms are chosen.
- EmbeddedModel.ImpulseJoint.SetMotor: writes only the target velocity and the factor; the rest of the engine's motor state (stiffness, target position) is not modelled.
- Engine scheduling is not modelled. This covers `run_if(resource_changed…)`, `input_just_pressed(KeyCode::B)` and the ordering of Startup, PreUpdate and Update. Each system is one method call whose engine inputs (load state, assets, spawner answers, just-pressed keys, queries) are parameters. That the builder runs exactly once is a property of the Startup schedule. The model shows only that the builder sets the motor's joint entity.
- Panics (`unwrap`, `panic!`) are modelled as outcomes that leave the state unchanged. The application stopping after a panic is modelled only by `LoadTrace` stopping there.
- Logging and text output (`info!`, `warn!`, `debug!`, `println!`, the `INSTRUCTIONS` text behind `Display`) are not modelled beyond the branch taken.
- The persistence of `KeyBindings` (directory choice, JSON file, `bevy_persistent`) is not modelled. Only the record and its default are.
- src/grid_plugin.rs is a single drawing call with no state and is not part of this model.
- The call site `parse_scene` at src/main.rs:92 names a function that exists only as `_parse_scene`, and the `setup` at src/main.rs:96-117 has no feature gate, so it clashes with the `#[cfg(feature = "blender")]` `setup` at src/main.rs:86-94 when that feature is on. The model covers the parser itself and not that `setup`.
- `usize` is taken to be 64 bits wide.
