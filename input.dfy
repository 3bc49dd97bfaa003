/** The keyboard as the engine reports it: the keys the application reacts to, every other key by its code. */
module Input {

  datatype KeyCode =
    | ArrowLeft
    | ArrowRight
    | ArrowUp
    | ArrowDown
    | KeyL
    | KeyU
    | Other(code: nat)
}
