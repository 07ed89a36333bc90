/**
 * Operation mode: the pointer on the phone screen, moved with the arrow keys,
 * tapping with Enter, dragging with Space, and the physical-key shortcuts and
 * custom-key slots that letters select.
 *
 * The program keeps this state in package-level variables; `Session` holds
 * them as fields and its methods update them in place, each proved against
 * the pure step functions below.
 */
module Operation {
  import opened Wrappers
  import opened GoStrings
  import opened Device
  import opened Keys
  import Capture
  import Geometry
  import ScreenSize

  /** How far one arrow key moves the pointer, in device pixels. */
  const MoveStep := 15

  /** The duration of the swipe that ends a drag, in milliseconds. */
  const DragMillis := 300

  /** The package-level variables operation mode reads and writes. */
  datatype State = State(
    screenWidth: int, screenHeight: int,
    currentX: int, currentY: int,
    dragStartX: int, dragStartY: int,
    isDragging: bool,
    customKeys: map<string, string>)

  /** The values the variables start with: a 1080x1920 screen, the pointer at its centre, no drag, no custom keys. */
  const Initial: State := State(1080, 1920, 540, 960, 0, 0, false, map[])

  /** The pointer lies on the screen, edges included. */
  predicate OnScreen(s: State)
  {
    0 <= s.currentX <= s.screenWidth && 0 <= s.currentY <= s.screenHeight
  }

  /** The registry key for a custom slot: "c" followed by the slot's character. */
  function Slot(d: char): (n: string)
    ensures |n| == 2 && n[0] == 'c' && n[1] == d
  {
    "c" + [d]
  }

  /** A name the registry can hold: a slot 1-9, or slot NUL, which a failed prompt leaves behind. */
  predicate IsSlotName(n: string)
  {
    |n| == 2 && n[0] == 'c' && ('1' <= n[1] <= '9' || n[1] == '\0')
  }

  /** The invariant operation mode keeps: the pointer is on the screen and the registry holds only slot names. */
  predicate Good(s: State)
  {
    OnScreen(s) && forall n :: n in s.customKeys ==> IsSlotName(n)
  }

  // ---------------------------------------------------------------------
  // One keystroke
  // ---------------------------------------------------------------------

  /** The effect of the switch on the key: the new variables, the device calls, and whether the process exits. */
  datatype KeyEffect = KeyEffect(state: State, actions: seq<Action>, exit: bool)

  /** The switch on the key of a keystroke. */
  function OnKey(s: State, k: Key): (r: KeyEffect)
    ensures r.exit <==> k == CtrlC
    ensures r.state.screenWidth == s.screenWidth && r.state.screenHeight == s.screenHeight
    ensures r.state.customKeys == s.customKeys
    ensures OnScreen(s) ==> OnScreen(r.state)
    ensures OnScreen(s) ==> s.currentX - MoveStep <= r.state.currentX <= s.currentX + MoveStep
                            && s.currentY - MoveStep <= r.state.currentY <= s.currentY + MoveStep
    ensures r.actions != [] ==> |r.actions| == 1 && ((k == Enter && !s.isDragging) || (k == Space && s.isDragging))
    ensures r.state != s ==> k in {ArrowUp, ArrowDown, ArrowLeft, ArrowRight, Space, Esc}
  {
    match k
    case ArrowUp => KeyEffect(s.(currentY := Max(0, s.currentY - MoveStep)), [], false)
    case ArrowDown => KeyEffect(s.(currentY := Min(s.screenHeight, s.currentY + MoveStep)), [], false)
    case ArrowLeft => KeyEffect(s.(currentX := Max(0, s.currentX - MoveStep)), [], false)
    case ArrowRight => KeyEffect(s.(currentX := Min(s.screenWidth, s.currentX + MoveStep)), [], false)
    case Enter => KeyEffect(s, if s.isDragging then [] else [Tap(s.currentX, s.currentY)], false)
    case Space =>
      if !s.isDragging then
        KeyEffect(s.(dragStartX := s.currentX, dragStartY := s.currentY, isDragging := true), [], false)
      else
        KeyEffect(s.(isDragging := false), [Swipe(s.dragStartX, s.dragStartY, s.currentX, s.currentY, DragMillis)], false)
    case Esc => KeyEffect(if s.isDragging then s.(isDragging := false) else s, [], false)
    case CtrlC => KeyEffect(s, [], true)
    case _ => KeyEffect(s, [], false)
  }

  /**
   * Any key the switch has no case for (Backspace, 0x7F, Ctrl+O, Ctrl+I, a
   * printable character's NoKey, any other code) falls through: no change,
   * no call, no exit.
   */
  lemma UnhandledKeyDoesNothing(s: State, k: Key)
    requires k !in {ArrowUp, ArrowDown, ArrowLeft, ArrowRight, Enter, Space, Esc, CtrlC}
    ensures OnKey(s, k) == KeyEffect(s, [], false)
  {
  }

  /** The fixed shortcuts: power, volume up, volume down, home, back and menu. */
  const Shortcuts: map<char, string> := map['p' := "26", '+' := "24", '-' := "25", 'h' := "3", 'b' := "4", 'm' := "82"]

  /** Everything a keystroke leaves behind: the variables, the device calls, how the loop goes on, and the input not yet read. */
  datatype Step = Step(state: State, actions: seq<Action>, flow: Flow, env: Env)

  /** How the record prompt ends: with a digit 1-9, with a keyboard error, or with Ctrl+C; and the keystrokes after it. */
  datatype Prompt = Digit(d: char, rest: seq<Keystroke>) | PromptFailed(rest: seq<Keystroke>) | PromptExit(rest: seq<Keystroke>)

  /** The record prompt: keystrokes other than a digit 1-9 or Ctrl+C are ignored and the prompt asks again. */
  function ReadSlotDigit(keys: seq<Keystroke>): (p: Prompt)
    ensures p.Digit? ==> '1' <= p.d <= '9'
    ensures |p.rest| < |keys| || (keys == [] && p == PromptFailed([]))
    decreases |keys|
  {
    if keys == [] then PromptFailed([])
    else match keys[0]
      case ReadError => PromptFailed(keys[1..])
      case Press(c, k) =>
        if k == CtrlC then PromptExit(keys[1..])
        else if '1' <= c <= '9' then Digit(c, keys[1..])
        else ReadSlotDigit(keys[1..])
  }

  /** The slot character a prompt leaves: its digit, or NUL (the rune's zero value) when the keyboard failed. */
  function SlotChar(p: Prompt): char
  {
    if p.Digit? then p.d else '\0'
  }

  /**
   * Recording a custom key ('C'): prompt for the slot, capture a key press on
   * the phone, and, if the capture resolves, bind the slot to its code.
   */
  function Record(s: State, e: Env): (r: Step)
    ensures r.flow == Continue || r.flow == Exit
    ensures r.flow == Exit <==> ReadSlotDigit(e.keys).PromptExit?
    ensures r.state == s.(customKeys := r.state.customKeys)
    ensures forall n :: n != Slot(SlotChar(ReadSlotDigit(e.keys))) ==>
              (n in r.state.customKeys <==> n in s.customKeys)
              && (n in s.customKeys ==> r.state.customKeys[n] == s.customKeys[n])
  {
    var p := ReadSlotDigit(e.keys);
    var e1 := e.(keys := p.rest);
    if p.PromptExit? then Step(s, [], Exit, e1)
    else
      var (chunks, e2) := NextCapture(e1);
      var got := Capture.Scan(chunks, "");
      var s' := if got.Some? then s.(customKeys := s.customKeys[Slot(SlotChar(p)) := got.value.code]) else s;
      Step(s', [GetEvent], Continue, e2)
  }

  /**
   * Triggering a custom key ('c'): read one keystroke; a digit 1-9 whose slot
   * is bound presses that slot's code. Anything else, Ctrl+C included, is
   * reported as invalid and ignored.
   */
  function Trigger(s: State, e: Env): (r: Step)
    ensures r.state == s && r.flow == Continue && r.env == NextKey(e).1
    ensures |r.actions| <= 1
  {
    var (ev, e1) := NextKey(e);
    if ev.Press? && '1' <= ev.ch <= '9' && Slot(ev.ch) in s.customKeys then
      Step(s, [PressKey(s.customKeys[Slot(ev.ch)])], Continue, e1)
    else
      Step(s, [], Continue, e1)
  }

  /** The switch on the character of a keystroke. */
  function OnChar(s: State, c: char, e: Env): Step
  {
    if c == 'C' then Record(s, e)
    else if c in Shortcuts then Step(s, [PressKey(Shortcuts[c])], Continue, e)
    else if c == 'c' then Trigger(s, e)
    else Step(s, [], Continue, e)
  }

  /**
   * The character switch changes at most the registry, and only for 'C'; it
   * reads further input only for 'C' and 'c'; it makes at most one call; a
   * shortcut letter presses its key; any other character does nothing.
   */
  lemma OnCharEffects(s: State, c: char, e: Env)
    ensures var r := OnChar(s, c, e);
            r.state == s.(customKeys := r.state.customKeys)
            && (r.state != s ==> c == 'C')
            && (r.flow == Continue || (r.flow == Exit && c == 'C'))
            && (c != 'C' && c != 'c' ==> r.env == e)
            && |r.actions| <= 1
            && (c in Shortcuts ==> r.actions == [PressKey(Shortcuts[c])])
            && (c !in Shortcuts && c != 'C' && c != 'c' ==> r == Step(s, [], Continue, e))
  {
  }

  /**
   * One keystroke of operation mode, read already: a read error ends the mode
   * with the error; Ctrl+I leaves it; otherwise the key switch and then the
   * character switch run, and their device calls happen in that order.
   */
  function OpStep(s: State, ev: Keystroke, e: Env): (r: Step)
    ensures ev.ReadError? ==> r == Step(s, [], KeyboardError, e)
    ensures r.flow == Leave <==> ev.Press? && ev.key == CtrlI
    ensures r.flow == KeyboardError <==> ev.ReadError?
    ensures |r.env.keys| <= |e.keys|
    ensures r.state.screenWidth == s.screenWidth && r.state.screenHeight == s.screenHeight
    ensures Good(s) ==> Good(r.state)
  {
    match ev
    case ReadError => Step(s, [], KeyboardError, e)
    case Press(c, k) =>
      if k == CtrlI then Step(s, [], Leave, e)
      else
        var ke := OnKey(s, k);
        if ke.exit then Step(ke.state, ke.actions, Exit, e)
        else
          var r := OnChar(ke.state, c, e);
          r.(actions := ke.actions + r.actions)
  }

  /** operationMode's loop: keystroke after keystroke until one leaves the mode, exits or fails. */
  function RunOp(s: State, e: Env): (r: Step)
    ensures r.flow != Continue
    ensures |r.env.keys| <= |e.keys|
    ensures r.state.screenWidth == s.screenWidth && r.state.screenHeight == s.screenHeight
    ensures Good(s) ==> Good(r.state)
    decreases |e.keys|
  {
    var (ev, e1) := NextKey(e);
    var r := OpStep(s, ev, e1);
    if r.flow != Continue then r
    else
      After(r.actions, RunOp(r.state, r.env))
  }

  /** A run's outcome with the device calls made before it put in front. */
  function After(pre: seq<Action>, r: Step): (q: Step)
    ensures q.state == r.state && q.flow == r.flow && q.env == r.env
    ensures |q.actions| == |pre| + |r.actions|
  {
    r.(actions := pre + r.actions)
  }

  lemma AfterAfter(a: seq<Action>, b: seq<Action>, r: Step)
    ensures After(a, After(b, r)) == After(a + b, r)
  {
    assert a + (b + r.actions) == (a + b) + r.actions;
  }

  // ---------------------------------------------------------------------
  // The pointer preview
  // ---------------------------------------------------------------------

  /**
   * The preview box: the pointer's cell is its position scaled by the box
   * size over the screen size, truncated. With a zero screen dimension the
   * program panics instead (see Session.PointerArea and Controller.RunMain).
   */
  function PointerFrame(s: State, boxW: nat, boxH: int, glyph: char, fill: char): seq<string>
    requires s.screenWidth != 0 && s.screenHeight != 0
  {
    Geometry.Frame(boxW, boxH,
      Geometry.Cell(s.currentX, boxW, s.screenWidth),
      Geometry.Cell(s.currentY, boxH, s.screenHeight), glyph, fill)
  }

  /**
   * The pointer glyph is drawn exactly once while the pointer is short of the
   * right and bottom edges, and not at all on them: a pointer at x == width
   * maps to the column just past the box.
   */
  lemma PointerShownIff(s: State, boxW: nat, boxH: int, glyph: char, fill: char)
    requires OnScreen(s) && s.screenWidth > 0 && s.screenHeight > 0 && boxW > 0 && boxH > 0
    requires glyph != fill && glyph != '|' && glyph != '+' && glyph != '-'
    ensures Geometry.CountIn(PointerFrame(s, boxW, boxH, glyph, fill), glyph)
            == if s.currentX < s.screenWidth && s.currentY < s.screenHeight then 1 else 0
  {
    var gx := Geometry.Cell(s.currentX, boxW, s.screenWidth);
    var gy := Geometry.Cell(s.currentY, boxH, s.screenHeight);
    Geometry.CellInBox(s.currentX, boxW, s.screenWidth);
    Geometry.CellInBox(s.currentY, boxH, s.screenHeight);
    Geometry.CellInsideIff(s.currentX, boxW, s.screenWidth);
    Geometry.CellInsideIff(s.currentY, boxH, s.screenHeight);
    Geometry.FrameGlyphCount(boxW, boxH, gx, gy, glyph, fill);
  }

  // ---------------------------------------------------------------------
  // The variables, updated in place
  // ---------------------------------------------------------------------

  class Session {
    var screenWidth: int
    var screenHeight: int
    var currentX: int
    var currentY: int
    var dragStartX: int
    var dragStartY: int
    var isDragging: bool
    var customKeys: map<string, string>

    function Model(): State
      reads this
    {
      State(screenWidth, screenHeight, currentX, currentY, dragStartX, dragStartY, isDragging, customKeys)
    }

    /** The variables' initial values, with the registry made empty as init() does. */
    constructor ()
      ensures Model() == Initial && Good(Model())
    {
      screenWidth, screenHeight := 1080, 1920;
      currentX, currentY := 540, 960;
      dragStartX, dragStartY := 0, 0;
      isDragging := false;
      customKeys := map[];
    }

    /**
     * getScreenSize, given the output of `adb shell wm size` (None when the
     * command failed): on a match the screen takes the matched size and the
     * pointer moves to its centre; otherwise nothing changes.
     */
    method GetScreenSize(output: Option<string>) returns (ok: bool)
      modifies this
      ensures var size := if output.Some? then ScreenSize.ParseScreenSize(output.value) else None;
              ok == size.Some?
              && Model() == if size.None? then old(Model())
                            else old(Model()).(screenWidth := size.value.0, screenHeight := size.value.1,
                                               currentX := size.value.0 / 2, currentY := size.value.1 / 2)
      ensures old(Good(Model())) ==> Good(Model())
    {
      if output.None? {
        return false;
      }
      var size := ScreenSize.ParseScreenSize(output.value);
      if size.None? {
        return false;
      }
      var (width, height) := size.value;
      screenWidth := width;
      screenHeight := height;
      currentX, currentY := screenWidth / 2, screenHeight / 2;
      return true;
    }

    /** One keystroke of operationMode's loop, after it has been read. */
    method HandleKey(ev: Keystroke, io: Inputs) returns (actions: seq<Action>, flow: Flow)
      modifies this, io
      ensures Step(Model(), actions, flow, io.Pending()) == OpStep(old(Model()), ev, old(io.Pending()))
    {
      if ev.ReadError? {
        return [], KeyboardError;
      }
      if ev.key == CtrlI {
        return [], Leave;
      }
      var exit;
      actions, exit := ApplyKey(ev.key);
      if exit {
        return actions, Exit;
      }
      var more;
      more, flow := ApplyChar(ev.ch, io);
      actions := actions + more;
    }

    /** The switch on the key. */
    method ApplyKey(k: Key) returns (actions: seq<Action>, exit: bool)
      modifies this
      ensures KeyEffect(Model(), actions, exit) == OnKey(old(Model()), k)
    {
      actions, exit := [], false;
      match k {
        case ArrowUp => currentY := Max(0, currentY - MoveStep);
        case ArrowDown => currentY := Min(screenHeight, currentY + MoveStep);
        case ArrowLeft => currentX := Max(0, currentX - MoveStep);
        case ArrowRight => currentX := Min(screenWidth, currentX + MoveStep);
        case Enter =>
          if !isDragging {
            actions := [Tap(currentX, currentY)];
          }
        case Space =>
          if !isDragging {
            dragStartX, dragStartY := currentX, currentY;
            isDragging := true;
          } else {
            actions := [Swipe(dragStartX, dragStartY, currentX, currentY, DragMillis)];
            isDragging := false;
          }
        case Esc =>
          if isDragging {
            isDragging := false;
          }
        case CtrlC => exit := true;
        case _ =>
      }
    }

    /** The switch on the character. */
    method ApplyChar(c: char, io: Inputs) returns (actions: seq<Action>, flow: Flow)
      modifies this, io
      ensures Step(Model(), actions, flow, io.Pending()) == OnChar(old(Model()), c, old(io.Pending()))
    {
      actions, flow := [], Continue;
      if c == 'C' {
        actions, flow := RecordKey(io);
      } else if c in Shortcuts {
        actions := [PressKey(Shortcuts[c])];
      } else if c == 'c' {
        var sub := io.GetKey();
        if sub.Press? && '1' <= sub.ch <= '9' && Slot(sub.ch) in customKeys {
          actions := [PressKey(customKeys[Slot(sub.ch)])];
        }
      }
    }

    /** Recording a custom key: the prompt, the capture, and the binding. */
    method RecordKey(io: Inputs) returns (actions: seq<Action>, flow: Flow)
      modifies this, io
      ensures Step(Model(), actions, flow, io.Pending()) == Record(old(Model()), old(io.Pending()))
    {
      var p := PromptSlot(io);
      if p.PromptExit? {
        return [], Exit;
      }
      var chunks := io.ReadCapture();
      var got := Capture.ReadUntilRelease(chunks);
      if got.Some? {
        customKeys := customKeys[Slot(SlotChar(p)) := got.value.code];
      }
      return [GetEvent], Continue;
    }

    /** operationMode: handles keystrokes until one leaves the mode, exits or fails. */
    method OperationMode(io: Inputs) returns (actions: seq<Action>, flow: Flow)
      modifies this, io
      ensures Step(Model(), actions, flow, io.Pending()) == RunOp(old(Model()), old(io.Pending()))
    {
      actions := [];
      while true
        invariant RunOp(old(Model()), old(io.Pending())) == After(actions, RunOp(Model(), io.Pending()))
        decreases |io.keys|
      {
        ghost var s0, e0 := Model(), io.Pending();
        var ev := io.GetKey();
        ghost var e1 := io.Pending();
        var more, f := HandleKey(ev, io);
        assert Step(Model(), more, f, io.Pending()) == OpStep(s0, ev, e1);
        if f != Continue {
          assert RunOp(s0, e0) == Step(Model(), more, f, io.Pending());
          return actions + more, f;
        }
        assert RunOp(s0, e0) == After(more, RunOp(Model(), io.Pending()));
        AfterAfter(actions, more, RunOp(Model(), io.Pending()));
        actions := actions + more;
      }
    }

    /**
     * displayPointerArea's drawing, for a box of the given size. None stands
     * for the integer division by a zero screen dimension, which panics
     * before anything is drawn.
     */
    method PointerArea(boxW: nat, boxH: int, glyph: char, fill: char) returns (lines: Option<seq<string>>)
      ensures lines.None? <==> screenWidth == 0 || screenHeight == 0
      ensures lines.Some? ==> lines.value == PointerFrame(Model(), boxW, boxH, glyph, fill)
    {
      if screenWidth == 0 || screenHeight == 0 {
        return None;
      }
      var gx := Geometry.Cell(currentX, boxW, screenWidth);
      var gy := Geometry.Cell(currentY, boxH, screenHeight);
      var drawn := Geometry.RenderFrame(boxW, boxH, gx, gy, glyph, fill);
      lines := Some(drawn);
    }
  }

  /** The record prompt's loop, reading until a digit 1-9, Ctrl+C or a keyboard error. */
  method PromptSlot(io: Inputs) returns (p: Prompt)
    modifies io
    ensures p == ReadSlotDigit(old(io.keys))
    ensures io.keys == p.rest && io.captures == old(io.captures)
  {
    while true
      invariant ReadSlotDigit(io.keys) == ReadSlotDigit(old(io.keys))
      invariant io.captures == old(io.captures)
      decreases |io.keys|
    {
      var ev := io.GetKey();
      if ev.ReadError? {
        return PromptFailed(io.keys);
      }
      if ev.key == CtrlC {
        return PromptExit(io.keys);
      }
      if '1' <= ev.ch <= '9' {
        return Digit(ev.ch, io.keys);
      }
    }
  }
}
