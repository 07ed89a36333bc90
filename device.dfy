/**
 * What the controller asks of the phone. Every `adb` invocation becomes one
 * Action value; the process that would run it, its output and its exit status
 * are not part of the model (a failed command is only reported on the screen
 * by the program, it never changes its state).
 */
module Device {
  import opened GoStrings

  datatype Action =
    | Tap(x: int, y: int)                                     // input tap x y
    | Swipe(x1: int, y1: int, x2: int, y2: int, millis: int)  // input swipe x1 y1 x2 y2 ms
    | KeyEvent(code: string)                                  // input keyevent code
    | SendEvent(code: string)                                 // sendevent press and release on the first /dev/input/event*
    | Text(text: string)                                      // input text text
    | GetEvent                                                // getevent -l, read by the key capture

  /** The two codes pressKey injects through sendevent instead of keyevent: the shutter and focus keys. */
  const SendEventCodes: set<string> := {"766", "800"}

  /** pressKey: the shutter and focus codes go through sendevent, every other code through keyevent. */
  function PressKey(code: string): (a: Action)
    ensures a.SendEvent? || a.KeyEvent?
    ensures a.code == code
    ensures a.SendEvent? <==> code == "766" || code == "800"
  {
    if code in SendEventCodes then SendEvent(code) else KeyEvent(code)
  }

  /** sendText: spaces travel as "%s", because the device's text command splits on spaces. */
  function SendText(text: string): (a: Action)
    ensures a.Text? && forall i :: 0 <= i < |a.text| ==> a.text[i] != ' '
  {
    Text(EscapeSpaces(text))
  }

  /** The phone reads "%s" back as a space, so text without a literal "%s" arrives as it was sent. */
  lemma SendTextArrives(text: string)
    requires NoPercentS(text)
    ensures UnescapeSpaces(SendText(text).text) == text
  {
    UnescapeEscape(text);
  }

  function Max(a: int, b: int): (m: int)
    ensures m >= a && m >= b && (m == a || m == b)
  {
    if a > b then a else b
  }

  function Min(a: int, b: int): (m: int)
    ensures m <= a && m <= b && (m == a || m == b)
  {
    if a < b then a else b
  }
}
