/** The key-binding resource of src/config_plugin.rs; loading and saving it is not modelled. */
module Config {
  import opened Input

  /** Which key turns the motor clockwise and which counter-clockwise. */
  datatype KeyBindings = KeyBindings(rotateClockwise: KeyCode, rotateCounterClockwise: KeyCode)

  /** The bindings written out when no configuration file exists yet. */
  const DefaultKeyBindings: KeyBindings := KeyBindings(ArrowLeft, ArrowRight)
}
