/** The input events the states receive (src/input.rs). Reading them from the
    terminal is not part of this model; only the plain data types are. */
module Input {

  /** The keyboard keys. */
  datatype Key =
    | Alt(c: char)
    | Backspace
    | Char(c: char)
    | Ctrl(c: char)
    | Down
    | End
    | Escape
    | F(n: nat)
    | Home
    | Left
    | PageDown
    | PageUp
    | Right
    | Unknown
    | Up

  /** An event: a single key (in key mode) or a whole line of text (in line mode). */
  datatype InputEvent = Key(key: Key) | Line(line: string)

  /** The kind of input a state asks the run loop to read. */
  datatype InputMode = KeyMode | LineMode
}
