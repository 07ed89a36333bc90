/**
 * What the controller reads: keystrokes from the terminal keyboard library,
 * and, for each key capture, the chunks that `getevent -l` delivers.
 */
module Keys {

  /**
   * The keyboard library's key codes that the program tests for. Backspace is
   * the library's KeyBackspace (0x08); Backspace2 is its KeyBackspace2 (0x7F),
   * which many terminals send for the backspace key. Ctrl+I is also the Tab key.
   * Printable characters arrive with NoKey and the character set.
   */
  datatype Key =
    | NoKey | ArrowUp | ArrowDown | ArrowLeft | ArrowRight
    | Enter | Space | Esc | CtrlC | CtrlI | CtrlO | Backspace | Backspace2
    | OtherKey(code: nat)

  /** One call of keyboard.GetKey: a character and a key, or an error. */
  datatype Keystroke = Press(ch: char, key: Key) | ReadError

  /**
   * How one keystroke of a mode leaves its reading loop: it goes on, the mode
   * returns to the main loop, the process exits (os.Exit(0) on Ctrl+C), or
   * the keyboard failed and the mode returns the error.
   */
  datatype Flow = Continue | Leave | Exit | KeyboardError

  /**
   * Everything still to be read. `captures[k]` holds the chunks the k-th
   * key capture reads from getevent before its stream fails or its 5-second
   * timer fires; which of the two ends it makes no difference to the program.
   * Once `keys` is exhausted the keyboard is closed and every read fails.
   */
  datatype Env = Env(keys: seq<Keystroke>, captures: seq<seq<string>>)

  /**
   * keyboard.GetKey: the next keystroke, or a read error once the keyboard is
   * closed. The keyboard is an input of the model, so this contract says how
   * it is consumed rather than anything computed.
   */
  function NextKey(e: Env): (r: (Keystroke, Env))
    ensures r.1.captures == e.captures
    ensures e.keys == [] ==> r == (ReadError, e)
    ensures e.keys != [] ==> r.0 == e.keys[0] && r.1.keys == e.keys[1..]
  {
    if e.keys == [] then (ReadError, e) else (e.keys[0], e.(keys := e.keys[1..]))
  }

  /**
   * The chunks the next key capture reads; none if no key press ever arrives.
   * Like NextKey, this states how an input of the model is consumed.
   */
  function NextCapture(e: Env): (r: (seq<string>, Env))
    ensures r.1.keys == e.keys
    ensures e.captures == [] ==> r == ([], e)
    ensures e.captures != [] ==> r.0 == e.captures[0] && r.1.captures == e.captures[1..]
  {
    if e.captures == [] then ([], e) else (e.captures[0], e.(captures := e.captures[1..]))
  }

  /** The terminal keyboard and the device's event log, consumed as the program reads them. */
  class Inputs {
    var keys: seq<Keystroke>
    var captures: seq<seq<string>>

    function Pending(): Env
      reads this
    {
      Env(keys, captures)
    }

    constructor (e: Env)
      ensures Pending() == e
    {
      keys, captures := e.keys, e.captures;
    }

    method GetKey() returns (ev: Keystroke)
      modifies this
      ensures (ev, Pending()) == NextKey(old(Pending()))
    {
      if keys == [] {
        ev := ReadError;
      } else {
        ev := keys[0];
        keys := keys[1..];
      }
    }

    method ReadCapture() returns (chunks: seq<string>)
      modifies this
      ensures (chunks, Pending()) == NextCapture(old(Pending()))
    {
      if captures == [] {
        chunks := [];
      } else {
        chunks := captures[0];
        captures := captures[1..];
      }
    }
  }
}
