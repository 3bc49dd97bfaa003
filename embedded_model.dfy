/**
 * The rotary inverted pendulum of src/embedded_model.rs: the `Motor` resource naming
 * the motorised joint, the joint table the scene builder creates, the keyboard
 * control of the motor, and the name scan that finds the two bodies whose relative
 * rotation is reported. Shapes, poses, anchors and the physics itself belong to the
 * engine and are not modelled.
 */
module EmbeddedModel {
  import opened Wrappers
  import opened Input
  import opened Config

  type Entity = nat

  /** The joint variants the builder uses. */
  datatype JointKind = Fixed | Revolute

  /** Target angular velocity of the motor for the rotate keys. */
  const MotorVelocity: real := 10.0

  /** Drive strength passed with every motor command. */
  const MotorFactor: real := 10000.0

  /** A `set_motor_velocity(velocity, factor)` call. */
  datatype MotorCommand = SetMotorVelocity(velocity: real, factor: real)

  /** The `ImpulseJoint` component an entity carries: its parent body, its kind and its motor. */
  class ImpulseJoint {
    const parent: Entity
    const kind: JointKind
    var motorVelocity: real
    var motorFactor: real

    constructor (parent: Entity, kind: JointKind)
      ensures this.parent == parent && this.kind == kind
      ensures motorVelocity == 0.0 && motorFactor == 0.0
    {
      this.parent := parent;
      this.kind := kind;
      motorVelocity := 0.0;
      motorFactor := 0.0;
    }

    function MotorSetting(): MotorCommand
      reads this
    {
      SetMotorVelocity(motorVelocity, motorFactor)
    }

    /** `RevoluteJoint::set_motor_velocity`. */
    method SetMotor(cmd: MotorCommand)
      modifies this
      ensures MotorSetting() == cmd
    {
      motorVelocity := cmd.velocity;
      motorFactor := cmd.factor;
    }
  }

  /** The `Motor` resource: which entity carries the motorised joint. */
  class Motor {
    var jointEntity: Option<Entity>

    /** `Motor::default()`. */
    constructor ()
      ensures jointEntity == None
    {
      jointEntity := None;
    }
  }

  // ---------------------------------------------------------------------------
  // The joint table of the scene builder (src/embedded_model.rs:49-243)
  // ---------------------------------------------------------------------------

  /** The bodies the builder spawns, as the engine numbers them. */
  datatype PendulumBodies = PendulumBodies(
    ground: Entity, cube1: Entity, cylinder1: Entity, cube2: Entity,
    cylinder2: Entity, cube3: Entity, cylinder3: Entity)

  /** The seven bodies are seven different entities. */
  predicate Distinct(b: PendulumBodies) {
    && b.ground !in {b.cube1, b.cylinder1, b.cube2, b.cylinder2, b.cube3, b.cylinder3}
    && b.cube1 !in {b.cylinder1, b.cube2, b.cylinder2, b.cube3, b.cylinder3}
    && b.cylinder1 !in {b.cube2, b.cylinder2, b.cube3, b.cylinder3}
    && b.cube2 !in {b.cylinder2, b.cube3, b.cylinder3}
    && b.cylinder2 !in {b.cube3, b.cylinder3}
    && b.cube3 != b.cylinder3
  }

  /**
   * Which entity carries which joint and to which parent. `ImpulseJoint::new(parent, _)`
   * is inserted on the other body, so the first revolute joint sits on `cube_1`;
   * `cylinder_2` carries none.
   */
  function PendulumJoints(b: PendulumBodies): (r: map<Entity, (Entity, JointKind)>)
    ensures r.Keys == {b.ground, b.cube1, b.cylinder1, b.cube2, b.cube3, b.cylinder3}
  {
    map[b.ground := (b.cube1, Fixed),
        b.cube1 := (b.cylinder1, Revolute),
        b.cylinder1 := (b.cube2, Fixed),
        b.cube2 := (b.cylinder2, Fixed),
        b.cube3 := (b.cylinder2, Revolute),
        b.cylinder3 := (b.cube3, Fixed)]
  }

  /**
   * With distinct bodies, `cylinder_2` carries no joint, and the two revolute joints
   * are the motorised one on `cube_1` (parent `cylinder_1`) and the free one on
   * `cube_3` (parent `cylinder_2`).
   */
  lemma PendulumJointKinds(b: PendulumBodies)
    requires Distinct(b)
    ensures b.cylinder2 !in PendulumJoints(b)
    ensures forall e :: e in PendulumJoints(b) ==>
              (PendulumJoints(b)[e].1 == Revolute <==> e == b.cube1 || e == b.cube3)
    ensures PendulumJoints(b)[b.cube1] == (b.cylinder1, Revolute)
    ensures PendulumJoints(b)[b.cube3] == (b.cylinder2, Revolute)
  {
  }

  function KindsOf(joints: map<Entity, ImpulseJoint>): map<Entity, JointKind>
  {
    map e | e in joints :: joints[e].kind
  }

  /** No two entities share one joint component. */
  predicate Injective(joints: map<Entity, ImpulseJoint>) {
    forall e1, e2 :: e1 in joints && e2 in joints && e1 != e2 ==> joints[e1] != joints[e2]
  }

  /**
   * `add_rotary_interved_pendulum`, reduced to its joints and to the assignment of
   * `motor.joint_entity` (src/embedded_model.rs:119).
   */
  method AddRotaryInvertedPendulum(motor: Motor, b: PendulumBodies) returns (joints: map<Entity, ImpulseJoint>)
    requires Distinct(b)
    modifies motor
    ensures motor.jointEntity == Some(b.cube1)
    ensures joints.Keys == PendulumJoints(b).Keys && Injective(joints)
    ensures KindsOf(joints) == map e | e in PendulumJoints(b) :: PendulumJoints(b)[e].1
    ensures forall e :: e in joints ==> fresh(joints[e]) && (joints[e].parent, joints[e].kind) == PendulumJoints(b)[e]
  {
    var j0 := new ImpulseJoint(b.cube1, Fixed);
    var j1 := new ImpulseJoint(b.cylinder1, Revolute);
    motor.jointEntity := Some(b.cube1);
    var j2 := new ImpulseJoint(b.cube2, Fixed);
    var j3 := new ImpulseJoint(b.cylinder2, Fixed);
    var j4 := new ImpulseJoint(b.cylinder2, Revolute);
    var j5 := new ImpulseJoint(b.cube3, Fixed);
    joints := map[b.ground := j0, b.cube1 := j1, b.cylinder1 := j2, b.cube2 := j3, b.cube3 := j4, b.cylinder3 := j5];
    KindsOfTable(joints, PendulumJoints(b));
  }

  /** Joints that match a table entry for entry have the table's kinds. */
  lemma KindsOfTable(joints: map<Entity, ImpulseJoint>, table: map<Entity, (Entity, JointKind)>)
    requires joints.Keys == table.Keys
    requires forall e :: e in joints ==> (joints[e].parent, joints[e].kind) == table[e]
    ensures KindsOf(joints) == map e | e in table :: table[e].1
  {
  }

  // ---------------------------------------------------------------------------
  // Motor control (src/embedded_model.rs:245-285)
  // ---------------------------------------------------------------------------

  /** The first key of `priority` that was just pressed, with what it commands. */
  function FirstPressed(priority: seq<(KeyCode, real)>, justPressed: set<KeyCode>): (r: Option<real>)
    ensures r.None? <==> forall i :: 0 <= i < |priority| ==> priority[i].0 !in justPressed
    ensures r.Some? ==> exists i :: 0 <= i < |priority| && priority[i].0 in justPressed && priority[i].1 == r.value
                                    && forall j :: 0 <= j < i ==> priority[j].0 !in justPressed
  {
    if |priority| == 0 then None
    else if priority[0].0 in justPressed then Some(priority[0].1)
    else
      var r := FirstPressed(priority[1..], justPressed);
      assert forall i :: 1 <= i < |priority| ==> priority[i] == priority[1..][i - 1];
      r
  }

  /** Clockwise, counter-clockwise, stop: the keys in the order they are tried. */
  function Priority(bindings: KeyBindings): seq<(KeyCode, real)>
  {
    [(bindings.rotateClockwise, MotorVelocity), (bindings.rotateCounterClockwise, -MotorVelocity), (ArrowDown, 0.0)]
  }

  /** The motor command a set of just-pressed keys asks for, if any. */
  function SelectCommand(justPressed: set<KeyCode>, bindings: KeyBindings): (r: Option<MotorCommand>)
    ensures r.Some? ==> r.value.factor == MotorFactor
  {
    if bindings.rotateClockwise in justPressed then Some(SetMotorVelocity(MotorVelocity, MotorFactor))
    else if bindings.rotateCounterClockwise in justPressed then Some(SetMotorVelocity(-MotorVelocity, MotorFactor))
    else if ArrowDown in justPressed then Some(SetMotorVelocity(0.0, MotorFactor))
    else None
  }

  /** The command is the first key in priority order that was just pressed, with the fixed factor. */
  lemma SelectCommandIsFirstPressed(justPressed: set<KeyCode>, bindings: KeyBindings)
    ensures SelectCommand(justPressed, bindings) ==
              match FirstPressed(Priority(bindings), justPressed)
              case None => None
              case Some(v) => Some(SetMotorVelocity(v, MotorFactor))
  {
    var p := Priority(bindings);
    assert p[1..][1..] == [(ArrowDown, 0.0)];
    assert p[1..][1..][1..] == [];
    assert FirstPressed(p[1..][1..], justPressed) == if ArrowDown in justPressed then Some(0.0) else None;
    assert FirstPressed(p[1..], justPressed) ==
             if bindings.rotateCounterClockwise in justPressed then Some(-MotorVelocity)
             else FirstPressed(p[1..][1..], justPressed);
  }

  /** The four outcomes of the key check, one per branch, in priority order. */
  lemma SelectCommandCases(justPressed: set<KeyCode>, bindings: KeyBindings)
    ensures bindings.rotateClockwise in justPressed ==>
              SelectCommand(justPressed, bindings) == Some(SetMotorVelocity(10.0, 10000.0))
    ensures bindings.rotateClockwise !in justPressed && bindings.rotateCounterClockwise in justPressed ==>
              SelectCommand(justPressed, bindings) == Some(SetMotorVelocity(-10.0, 10000.0))
    ensures bindings.rotateClockwise !in justPressed && bindings.rotateCounterClockwise !in justPressed
            && ArrowDown in justPressed ==>
              SelectCommand(justPressed, bindings) == Some(SetMotorVelocity(0.0, 10000.0))
    ensures SelectCommand(justPressed, bindings).None? <==>
              bindings.rotateClockwise !in justPressed && bindings.rotateCounterClockwise !in justPressed
              && ArrowDown !in justPressed
  {
  }

  /**
   * With the default bindings, left arrow turns clockwise and wins over right arrow,
   * right arrow turns counter-clockwise, down arrow stops, and every other key does nothing.
   */
  lemma DefaultBindingsCommands()
    ensures SelectCommand({ArrowLeft, ArrowRight}, DefaultKeyBindings) == Some(SetMotorVelocity(MotorVelocity, MotorFactor))
    ensures forall ks: set<KeyCode> :: ArrowLeft in ks ==>
              SelectCommand(ks, DefaultKeyBindings) == Some(SetMotorVelocity(MotorVelocity, MotorFactor))
    ensures forall ks: set<KeyCode> :: ArrowLeft !in ks && ArrowRight in ks ==>
              SelectCommand(ks, DefaultKeyBindings) == Some(SetMotorVelocity(-MotorVelocity, MotorFactor))
    ensures forall ks: set<KeyCode> :: ArrowLeft !in ks && ArrowRight !in ks && ArrowDown in ks ==>
              SelectCommand(ks, DefaultKeyBindings) == Some(SetMotorVelocity(0.0, MotorFactor))
    ensures forall ks: set<KeyCode> :: ArrowLeft !in ks && ArrowRight !in ks && ArrowDown !in ks ==>
              SelectCommand(ks, DefaultKeyBindings) == None
  {
  }

  /** What one call of `control_motor` does. */
  datatype ControlOutcome =
    | NoJointEntity                               // the warning branch
    | JointMissing(entity: Entity)                // `unwrap` of the query lookup panics
    | NotRevolute(entity: Entity)                 // `unwrap` of `as_revolute_mut` panics
    | NoKeyPressed
    | MotorSet(entity: Entity, command: MotorCommand)

  /**
   * The decision of `control_motor`: the joint is looked up before any key is checked,
   * and its kind only matters once a key asks for a command.
   */
  function ControlDecision(jointEntity: Option<Entity>, kinds: map<Entity, JointKind>,
                           justPressed: set<KeyCode>, bindings: KeyBindings): (r: ControlOutcome)
    ensures jointEntity.None? <==> r == NoJointEntity
    ensures r.MotorSet? ==> jointEntity == Some(r.entity) && r.entity in kinds && kinds[r.entity] == Revolute
                            && Some(r.command) == SelectCommand(justPressed, bindings)
    ensures r.JointMissing? <==> jointEntity.Some? && jointEntity.value !in kinds
    ensures jointEntity.Some? && jointEntity.value in kinds && kinds[jointEntity.value] == Revolute
            && SelectCommand(justPressed, bindings).Some? ==>
              r == MotorSet(jointEntity.value, SelectCommand(justPressed, bindings).value)
    ensures r == NoKeyPressed <==> jointEntity.Some? && jointEntity.value in kinds
                                   && SelectCommand(justPressed, bindings).None?
    ensures r.NotRevolute? <==> jointEntity.Some? && jointEntity.value in kinds
                                && kinds[jointEntity.value] != Revolute && SelectCommand(justPressed, bindings).Some?
  {
    match jointEntity
    case None => NoJointEntity
    case Some(e) =>
      if e !in kinds then JointMissing(e)
      else
        match SelectCommand(justPressed, bindings)
        case None => NoKeyPressed
        case Some(cmd) => if kinds[e] == Revolute then MotorSet(e, cmd) else NotRevolute(e)
  }

  /** In the scene the builder makes, the motor's joint exists and is revolute: control never panics. */
  lemma BuiltPendulumNeverPanics(b: PendulumBodies, justPressed: set<KeyCode>, bindings: KeyBindings)
    requires Distinct(b)
    ensures var kinds := map e | e in PendulumJoints(b) :: PendulumJoints(b)[e].1;
            var r := ControlDecision(Some(b.cube1), kinds, justPressed, bindings);
            r == if SelectCommand(justPressed, bindings).None? then NoKeyPressed
                 else MotorSet(b.cube1, SelectCommand(justPressed, bindings).value)
  {
    var kinds := map e | e in PendulumJoints(b) :: PendulumJoints(b)[e].1;
    assert b.cube1 in kinds && kinds[b.cube1] == Revolute;
  }

  /**
   * `control_motor`: at most one joint's motor is written, the one `motor` names, and
   * only when a key asks for it; a panic is reported as its outcome.
   */
  method ControlMotor(justPressed: set<KeyCode>, motor: Motor, joints: map<Entity, ImpulseJoint>,
                      bindings: KeyBindings) returns (outcome: ControlOutcome)
    requires Injective(joints)
    modifies joints.Values
    ensures outcome == ControlDecision(motor.jointEntity, KindsOf(joints), justPressed, bindings)
    ensures forall e :: e in joints ==>
              joints[e].MotorSetting() == (if outcome.MotorSet? && outcome.entity == e then outcome.command
                                           else old(joints[e].MotorSetting()))
  {
    match motor.jointEntity
    case None =>
      outcome := NoJointEntity;
    case Some(entity) =>
      if entity !in joints {
        return JointMissing(entity);
      }
      var joint := joints[entity];
      var cmd := SelectCommand(justPressed, bindings);
      if cmd.None? {
        return NoKeyPressed;
      }
      if joint.kind != Revolute {
        return NotRevolute(entity);
      }
      joint.SetMotor(cmd.value);
      outcome := MotorSet(entity, cmd.value);
  }

  // ---------------------------------------------------------------------------
  // The name scan of `get_pendulum_state` (src/embedded_model.rs:287-312)
  // ---------------------------------------------------------------------------

  /** The two bodies whose relative rotation is reported, or that one of them is missing. */
  datatype PendulumState<T> = Found(cube3: T, cylinder2: T) | NotFound

  /** The value of the last entry carrying `name`, if any. */
  function LastNamed<T>(query: seq<(string, T)>, name: string): (r: Option<T>)
    ensures r.None? <==> forall i :: 0 <= i < |query| ==> query[i].0 != name
    ensures r.Some? ==> exists i :: 0 <= i < |query| && query[i] == (name, r.value)
                                    && forall j :: i < j < |query| ==> query[j].0 != name
  {
    if |query| == 0 then None
    else if query[|query| - 1].0 == name then Some(query[|query| - 1].1)
    else LastNamed(query[..|query| - 1], name)
  }

  /**
   * `get_pendulum_state`: scans the named transforms, keeping the last one seen for
   * `cube_3` and for `cylinder_2`, and finds the pair exactly when both occur (by the
   * contract of `LastNamed`).
   */
  method GetPendulumState<T>(query: seq<(string, T)>) returns (state: PendulumState<T>)
    ensures state.Found? <==> LastNamed(query, "cube_3").Some? && LastNamed(query, "cylinder_2").Some?
    ensures state.Found? ==> Some(state.cube3) == LastNamed(query, "cube_3")
                             && Some(state.cylinder2) == LastNamed(query, "cylinder_2")
  {
    var cube3: Option<T> := None;
    var cylinder2: Option<T> := None;
    for k := 0 to |query|
      invariant cube3 == LastNamed(query[..k], "cube_3")
      invariant cylinder2 == LastNamed(query[..k], "cylinder_2")
    {
      assert query[..k + 1][..k] == query[..k];
      var (name, transform) := query[k];
      if name == "cube_3" {
        cube3 := Some(transform);
      } else if name == "cylinder_2" {
        cylinder2 := Some(transform);
      }
    }
    assert query[..|query|] == query;
    if cube3.Some? && cylinder2.Some? {
      state := Found(cube3.value, cylinder2.value);
    } else {
      state := NotFound;
    }
  }
}
