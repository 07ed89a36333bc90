/**
 * Properties of operation mode over whole runs of keystrokes.
 */
module OperationFacts {
  import opened Wrappers
  import opened Device
  import opened Keys
  import opened Operation
  import Capture

  /** A keystroke without a character, as the keyboard library delivers special keys. */
  function KeyPress(k: Key): Keystroke
  {
    Press('\0', k)
  }

  function Presses(ks: seq<Key>): (r: seq<Keystroke>)
    ensures |r| == |ks| && forall i :: 0 <= i < |ks| ==> r[i] == KeyPress(ks[i])
  {
    seq(|ks|, i requires 0 <= i < |ks| => KeyPress(ks[i]))
  }

  function Repeat(k: Key, n: nat): (r: seq<Key>)
    ensures |r| == n && forall i :: 0 <= i < n ==> r[i] == k
  {
    seq(n, _ => k)
  }

  predicate IsArrow(k: Key)
  {
    k.ArrowUp? || k.ArrowDown? || k.ArrowLeft? || k.ArrowRight?
  }

  predicate AllArrows(ks: seq<Key>)
  {
    forall i :: 0 <= i < |ks| ==> IsArrow(ks[i])
  }

  /** The variables after the key switch has handled each key of `ks` in turn. */
  function Moved(s: State, ks: seq<Key>): State
    decreases |ks|
  {
    if ks == [] then s else Moved(OnKey(s, ks[0]).state, ks[1..])
  }

  /**
   * One arrow key: up and down change only y, left and right only x, each by
   * at most 15 and clamped to the screen; no device call, no drag change.
   */
  lemma ArrowMovesOneAxis(s: State, k: Key)
    requires IsArrow(k) && OnScreen(s)
    ensures var r := OnKey(s, k);
            r.actions == [] && !r.exit && OnScreen(r.state)
            && r.state == s.(currentX := r.state.currentX, currentY := r.state.currentY)
            && (k.ArrowUp? || k.ArrowDown? ==> r.state.currentX == s.currentX)
            && (k.ArrowLeft? || k.ArrowRight? ==> r.state.currentY == s.currentY)
            && (r.state == s <==> (k.ArrowUp? && s.currentY == 0) || (k.ArrowDown? && s.currentY == s.screenHeight)
                                  || (k.ArrowLeft? && s.currentX == 0) || (k.ArrowRight? && s.currentX == s.screenWidth))
            && -MoveStep <= r.state.currentX - s.currentX <= MoveStep
            && -MoveStep <= r.state.currentY - s.currentY <= MoveStep
  {
  }

  /**
   * The drag keys: Space starts a drag at the pointer without a call, Space
   * again swipes from the anchor and ends it, Esc ends it without a call, and
   * Enter taps only when no drag is in progress. The anchor is never cleared.
   */
  lemma DragKeys(s: State)
    ensures !s.isDragging ==> OnKey(s, Space) == KeyEffect(s.(dragStartX := s.currentX, dragStartY := s.currentY, isDragging := true), [], false)
    ensures s.isDragging ==> OnKey(s, Space) == KeyEffect(s.(isDragging := false), [Swipe(s.dragStartX, s.dragStartY, s.currentX, s.currentY, 300)], false)
    ensures OnKey(s, Esc) == KeyEffect(s.(isDragging := false), [], false)
    ensures OnKey(s, Enter).actions == if s.isDragging then [] else [Tap(s.currentX, s.currentY)]
    ensures OnKey(s, Enter).state == s
  {
  }

  /** Arrow keys move the pointer and change nothing else; the pointer stays on the screen. */
  lemma {:induction false} ArrowsOnlyMove(s: State, ks: seq<Key>)
    requires AllArrows(ks)
    ensures var m := Moved(s, ks);
            m == s.(currentX := m.currentX, currentY := m.currentY)
            && (OnScreen(s) ==> OnScreen(m))
    decreases |ks|
  {
    if ks != [] {
      ArrowsOnlyMove(OnKey(s, ks[0]).state, ks[1..]);
    }
  }

  /** Where the arrows take the pointer does not depend on the drag variables. */
  lemma {:induction false} MovedIgnoresDrag(s: State, ks: seq<Key>, ax: int, ay: int, dragging: bool)
    requires AllArrows(ks)
    ensures Moved(s.(dragStartX := ax, dragStartY := ay, isDragging := dragging), ks)
            == Moved(s, ks).(dragStartX := ax, dragStartY := ay, isDragging := dragging)
    decreases |ks|
  {
    if ks != [] {
      var t := s.(dragStartX := ax, dragStartY := ay, isDragging := dragging);
      ArrowIgnoresDrag(s, ks[0], ax, ay, dragging);
      assert Moved(t, ks) == Moved(OnKey(t, ks[0]).state, ks[1..]);
      assert Moved(s, ks) == Moved(OnKey(s, ks[0]).state, ks[1..]);
      MovedIgnoresDrag(OnKey(s, ks[0]).state, ks[1..], ax, ay, dragging);
    }
  }

  lemma ArrowIgnoresDrag(s: State, k: Key, ax: int, ay: int, dragging: bool)
    requires IsArrow(k)
    ensures OnKey(s.(dragStartX := ax, dragStartY := ay, isDragging := dragging), k).state
            == OnKey(s, k).state.(dragStartX := ax, dragStartY := ay, isDragging := dragging)
  {
  }

  /** A special key other than Ctrl+I and Ctrl+C, with no character: just the key switch, and the mode goes on. */
  lemma KeyStep(s: State, k: Key, e: Env)
    requires k != CtrlI && k != CtrlC
    ensures OpStep(s, KeyPress(k), e) == Step(OnKey(s, k).state, OnKey(s, k).actions, Continue, e)
  {
    assert OnChar(OnKey(s, k).state, '\0', e) == Step(OnKey(s, k).state, [], Continue, e);
    assert OnKey(s, k).actions + [] == OnKey(s, k).actions;
  }

  lemma ArrowStep(s: State, k: Key, e: Env)
    requires IsArrow(k)
    ensures OpStep(s, KeyPress(k), e) == Step(OnKey(s, k).state, [], Continue, e)
  {
  }

  /** Arrow keys make no device calls and keep the mode going: the run continues from the moved pointer. */
  lemma {:induction false} ArrowsRun(s: State, ks: seq<Key>, tail: seq<Keystroke>, caps: seq<seq<string>>)
    requires AllArrows(ks)
    ensures RunOp(s, Env(Presses(ks) + tail, caps)) == RunOp(Moved(s, ks), Env(tail, caps))
    decreases |ks|
  {
    if ks == [] {
      assert Presses(ks) + tail == tail;
    } else {
      var e := Env(Presses(ks) + tail, caps);
      assert e.keys[0] == KeyPress(ks[0]);
      assert e.keys[1..] == Presses(ks[1..]) + tail;
      var next := OnKey(s, ks[0]).state;
      var e1 := Env(e.keys[1..], caps);
      assert NextKey(e) == (KeyPress(ks[0]), e1);
      ArrowStep(s, ks[0], e1);
      ArrowsRun(next, ks[1..], tail, caps);
      var rest := RunOp(next, e1);
      assert RunOp(s, e) == After([], rest);
      assert [] + rest.actions == rest.actions;
      assert After([], rest) == rest;
      assert Moved(s, ks) == Moved(next, ks[1..]);
    }
  }

  lemma {:induction false} MovedUp(s: State, n: nat)
    requires s.currentY >= 0
    ensures Moved(s, Repeat(ArrowUp, n)) == s.(currentY := Max(0, s.currentY - MoveStep * n))
    decreases n
  {
    if n > 0 {
      var ks := Repeat(ArrowUp, n);
      assert ks[1..] == Repeat(ArrowUp, n - 1);
      MovedUp(OnKey(s, ArrowUp).state, n - 1);
    }
  }

  /** A keystroke that keeps the mode going: the run is its calls followed by the run from its new state. */
  lemma ContinueRun(s: State, ev: Keystroke, rest: seq<Keystroke>, caps: seq<seq<string>>, r: Step)
    requires OpStep(s, ev, Env(rest, caps)) == r && r.flow == Continue
    ensures RunOp(s, Env([ev] + rest, caps)) == After(r.actions, RunOp(r.state, r.env))
  {
    assert ([ev] + rest)[1..] == rest;
  }

  /** Leaving with Ctrl+I ends the run at once, with nothing sent to the phone. */
  lemma LeaveRun(s: State, rest: seq<Keystroke>, caps: seq<seq<string>>)
    ensures RunOp(s, Env([KeyPress(CtrlI)] + rest, caps)) == Step(s, [], Leave, Env(rest, caps))
  {
    assert ([KeyPress(CtrlI)] + rest)[1..] == rest;
  }

  /**
   * n presses of the up arrow move the pointer up by 15 pixels each, stopping
   * at the top edge, and send nothing to the phone.
   */
  lemma RepeatedUp(s: State, n: nat, caps: seq<seq<string>>)
    requires s.currentY >= 0
    ensures RunOp(s, Env(Presses(Repeat(ArrowUp, n)) + [KeyPress(CtrlI)], caps))
            == Step(s.(currentY := Max(0, s.currentY - MoveStep * n)), [], Leave, Env([], caps))
  {
    var ks := Repeat(ArrowUp, n);
    ArrowsRun(s, ks, [KeyPress(CtrlI)], caps);
    MovedUp(s, n);
    LeaveRun(Moved(s, ks), [], caps);
    assert [KeyPress(CtrlI)] + [] == [KeyPress(CtrlI)];
  }

  /**
   * A drag: Space, any arrow keys, Space. The only call is one swipe of 300
   * ms from where Space was first pressed to where the arrows took the
   * pointer; afterwards no drag is in progress and the anchor stays behind.
   */
  lemma DragSwipes(s: State, ks: seq<Key>, caps: seq<seq<string>>)
    requires !s.isDragging && AllArrows(ks)
    ensures var m := Moved(s, ks);
            RunOp(s, Env([KeyPress(Space)] + Presses(ks) + [KeyPress(Space), KeyPress(CtrlI)], caps))
            == Step(m.(dragStartX := s.currentX, dragStartY := s.currentY),
                    [Swipe(s.currentX, s.currentY, m.currentX, m.currentY, DragMillis)], Leave, Env([], caps))
  {
    var m := Moved(s, ks);
    var last := [KeyPress(CtrlI)] + [];
    var tail := [KeyPress(Space)] + last;
    var rest := Presses(ks) + tail;
    var d := s.(dragStartX := s.currentX, dragStartY := s.currentY, isDragging := true);
    assert OnKey(s, Space) == KeyEffect(d, [], false);
    KeyStep(s, Space, Env(rest, caps));
    ContinueRun(s, KeyPress(Space), rest, caps, Step(d, [], Continue, Env(rest, caps)));
    ArrowsRun(d, ks, tail, caps);
    MovedIgnoresDrag(s, ks, s.currentX, s.currentY, true);
    var md := Moved(d, ks);
    var swipe := Swipe(s.currentX, s.currentY, m.currentX, m.currentY, DragMillis);
    var ended := md.(isDragging := false);
    assert OnKey(md, Space) == KeyEffect(ended, [swipe], false);
    KeyStep(md, Space, Env(last, caps));
    ContinueRun(md, KeyPress(Space), last, caps, Step(ended, [swipe], Continue, Env(last, caps)));
    LeaveRun(ended, [], caps);
    assert ended == m.(dragStartX := s.currentX, dragStartY := s.currentY) by {
      ArrowsOnlyMove(s, ks);
    }
    assert [KeyPress(Space)] + rest == [KeyPress(Space)] + Presses(ks) + [KeyPress(Space), KeyPress(CtrlI)];
  }

  /** A keystroke the record prompt ignores: not a digit 1-9, not Ctrl+C, and not an error. */
  predicate Ignored(ev: Keystroke)
  {
    ev.Press? && ev.key != CtrlC && !('1' <= ev.ch <= '9')
  }

  /** The record prompt asks again after every keystroke it ignores, and takes the first digit. */
  lemma {:induction false} PromptSkipsInvalid(junk: seq<Keystroke>, d: char, k: Key, rest: seq<Keystroke>)
    requires forall i :: 0 <= i < |junk| ==> Ignored(junk[i])
    requires '1' <= d <= '9' && k != CtrlC
    ensures ReadSlotDigit(junk + [Press(d, k)] + rest) == Digit(d, rest)
    decreases |junk|
  {
    var keys := junk + [Press(d, k)] + rest;
    if junk == [] {
      assert keys[0] == Press(d, k) && keys[1..] == rest;
    } else {
      assert keys[0] == junk[0];
      assert keys[1..] == junk[1..] + [Press(d, k)] + rest;
      PromptSkipsInvalid(junk[1..], d, k, rest);
    }
  }

  /**
   * Recording binds the digit's slot to the captured code, replacing any
   * earlier binding of that slot and leaving every other slot as it was.
   */
  lemma RecordBindsSlot(s: State, e: Env, c: Capture.Captured)
    requires ReadSlotDigit(e.keys).Digit?
    requires e.captures != [] && Capture.Scan(e.captures[0], "") == Some(c)
    ensures var d := ReadSlotDigit(e.keys).d;
            var r := Record(s, e);
            r.state.customKeys == s.customKeys[Slot(d) := c.code]
            && r.actions == [GetEvent] && r.flow == Continue
            && r.env == Env(ReadSlotDigit(e.keys).rest, e.captures[1..])
  {
  }

  /** A capture that finds nothing leaves the registry as it was. */
  lemma RecordWithoutCapture(s: State, e: Env)
    requires !ReadSlotDigit(e.keys).PromptExit?
    requires e.captures == [] || Capture.Scan(e.captures[0], "") == None
    ensures Record(s, e).state == s && Record(s, e).actions == [GetEvent]
  {
  }

  /**
   * Triggering: a keystroke that is not a digit 1-9 looks nothing up, an
   * unbound slot presses nothing, and a bound slot presses its code.
   */
  lemma TriggerCases(s: State, ev: Keystroke, rest: seq<Keystroke>, caps: seq<seq<string>>)
    ensures var r := Trigger(s, Env([ev] + rest, caps));
            r.state == s && r.flow == Continue && r.env == Env(rest, caps)
            && (!(ev.Press? && '1' <= ev.ch <= '9') ==> r.actions == [])
            && (ev.Press? && '1' <= ev.ch <= '9' && Slot(ev.ch) !in s.customKeys ==> r.actions == [])
            && (ev.Press? && '1' <= ev.ch <= '9' && Slot(ev.ch) in s.customKeys ==> r.actions == [PressKey(s.customKeys[Slot(ev.ch)])])
  {
    assert ([ev] + rest)[1..] == rest;
  }

  /** Ctrl+C at the record prompt exits the process without capturing anything. */
  lemma RecordExitsOnCtrlC(s: State, ch: char, rest: seq<Keystroke>, caps: seq<seq<string>>)
    ensures OpStep(s, Press('C', NoKey), Env([Press(ch, CtrlC)] + rest, caps)) == Step(s, [], Exit, Env(rest, caps))
  {
    assert ([Press(ch, CtrlC)] + rest)[1..] == rest;
  }

  /**
   * A keyboard error at the record prompt does not cancel the recording: the
   * capture still runs and binds the slot named by NUL, "c\0".
   */
  lemma FailedPromptBindsNul(s: State, rest: seq<Keystroke>, cs: seq<string>, c: Capture.Captured, caps: seq<seq<string>>)
    requires Capture.Scan(cs, "") == Some(c)
    ensures OpStep(s, Press('C', NoKey), Env([ReadError] + rest, [cs] + caps))
            == Step(s.(customKeys := s.customKeys[Slot('\0') := c.code]), [GetEvent], Continue, Env(rest, caps))
  {
    assert ([ReadError] + rest)[1..] == rest;
    assert ([cs] + caps)[1..] == caps;
  }

  /** The trigger prompt does not honour Ctrl+C: it is an invalid slot, and the mode goes on. */
  lemma TriggerIgnoresCtrlC(s: State, rest: seq<Keystroke>, caps: seq<seq<string>>)
    ensures OpStep(s, Press('c', NoKey), Env([KeyPress(CtrlC)] + rest, caps)) == Step(s, [], Continue, Env(rest, caps))
  {
    assert ([KeyPress(CtrlC)] + rest)[1..] == rest;
  }

  /**
   * Binding a key and then triggering its slot presses the captured code:
   * 'C', a digit, a captured key press, then 'c' and the same digit.
   */
  lemma BindThenTrigger(s: State, d: char, cs: seq<string>, c: Capture.Captured)
    requires '1' <= d <= '9'
    requires Capture.Scan(cs, "") == Some(c)
    ensures RunOp(s, Env([Press('C', NoKey), Press(d, NoKey), Press('c', NoKey), Press(d, NoKey), KeyPress(CtrlI)], [cs]))
            == Step(s.(customKeys := s.customKeys[Slot(d) := c.code]), [GetEvent, PressKey(c.code)], Leave, Env([], []))
  {
    var after2 := [KeyPress(CtrlI)] + [];
    var after1 := [Press('c', NoKey)] + ([Press(d, NoKey)] + after2);
    var bound := s.(customKeys := s.customKeys[Slot(d) := c.code]);
    RecordStep(s, d, after1, cs, c, []);
    ContinueRun(s, Press('C', NoKey), [Press(d, NoKey)] + after1, [cs] + [], Step(bound, [GetEvent], Continue, Env(after1, [])));
    TriggerStep(bound, d, after2, []);
    ContinueRun(bound, Press('c', NoKey), [Press(d, NoKey)] + after2, [], Step(bound, [PressKey(c.code)], Continue, Env(after2, [])));
    LeaveRun(bound, [], []);
    assert [Press('C', NoKey)] + ([Press(d, NoKey)] + after1)
        == [Press('C', NoKey), Press(d, NoKey), Press('c', NoKey), Press(d, NoKey), KeyPress(CtrlI)];
    assert [cs] + [] == [cs];
  }

  /** 'C' and a digit bind the digit's slot to the captured code and go on with the rest. */
  lemma RecordStep(s: State, d: char, rest: seq<Keystroke>, cs: seq<string>, c: Capture.Captured, caps: seq<seq<string>>)
    requires '1' <= d <= '9'
    requires Capture.Scan(cs, "") == Some(c)
    ensures OpStep(s, Press('C', NoKey), Env([Press(d, NoKey)] + rest, [cs] + caps))
            == Step(s.(customKeys := s.customKeys[Slot(d) := c.code]), [GetEvent], Continue, Env(rest, caps))
  {
    assert ([Press(d, NoKey)] + rest)[1..] == rest;
    assert ([cs] + caps)[1..] == caps;
  }

  /** 'c' and the digit of a bound slot press the slot's code and go on with the rest. */
  lemma TriggerStep(s: State, d: char, rest: seq<Keystroke>, caps: seq<seq<string>>)
    requires '1' <= d <= '9' && Slot(d) in s.customKeys
    ensures OpStep(s, Press('c', NoKey), Env([Press(d, NoKey)] + rest, caps))
            == Step(s, [PressKey(s.customKeys[Slot(d)])], Continue, Env(rest, caps))
  {
    assert ([Press(d, NoKey)] + rest)[1..] == rest;
  }

  /** Every shortcut letter presses a fixed key through keyevent. */
  lemma ShortcutPresses(s: State, c: char, e: Env)
    requires c in Shortcuts
    ensures OpStep(s, Press(c, NoKey), e) == Step(s, [KeyEvent(Shortcuts[c])], Continue, e)
  {
  }
}
