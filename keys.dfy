/**
 * The terminal key event the views receive: crossterm's `KeyEvent`, reduced to the
 * parts the code inspects (the kind, the key code and the Control and Shift modifiers).
 */
module Keys {

  datatype KeyEventKind = Press | Release | Repeat

  /** The key codes the handlers match on; every other code is `Other`. */
  datatype KeyCode = Esc | Char(c: char) | Backspace | Enter | Other

  datatype KeyEvent = KeyEvent(code: KeyCode, kind: KeyEventKind, ctrl: bool, shift: bool)

  /** A pressed key with no modifiers. */
  function Pressed(code: KeyCode): (k: KeyEvent)
    ensures k.code == code && k.kind == Press && !k.ctrl && !k.shift
  {
    KeyEvent(code, Press, false, false)
  }
}
