/**
 * main's dispatch loop: Ctrl+O enters operation mode, Ctrl+I input mode,
 * Ctrl+C quits, and every other key only repeats the hint. A mode that
 * returns, normally or with a keyboard error, comes back here; a keyboard
 * error read here panics. Operation mode draws the pointer preview as soon
 * as it starts, and that drawing divides by the screen's width and height:
 * with a zero dimension the process panics on entering the mode.
 */
module Controller {
  import opened Device
  import opened Keys
  import opened Operation
  import InputMode

  /** How the process ends: Ctrl+C here returns from main, Ctrl+C inside a mode calls os.Exit(0), a read error here panics. */
  datatype Ending = Quit | Exited | Panicked

  /** The variables at the end, every device call made, and how the process ended. */
  datatype Outcome = Outcome(state: State, actions: seq<Action>, ending: Ending)

  function Prefixed(pre: seq<Action>, o: Outcome): (q: Outcome)
    ensures q.state == o.state && q.ending == o.ending
    ensures |q.actions| == |pre| + |o.actions|
  {
    o.(actions := pre + o.actions)
  }

  lemma PrefixedPrefixed(a: seq<Action>, b: seq<Action>, o: Outcome)
    ensures Prefixed(a, Prefixed(b, o)) == Prefixed(a + b, o)
  {
    assert a + (b + o.actions) == (a + b) + o.actions;
  }

  /** The dispatch loop over the keystrokes still to come. */
  function RunMain(s: State, e: Env): (o: Outcome)
    ensures Good(s) ==> Good(o.state)
    ensures o.state.screenWidth == s.screenWidth && o.state.screenHeight == s.screenHeight
    ensures e.keys == [] ==> o == Outcome(s, [], Panicked)
    decreases |e.keys|
  {
    var (ev, e1) := NextKey(e);
    match ev
    case ReadError => Outcome(s, [], Panicked)
    case Press(_, k) =>
      if k == CtrlO then
        if s.screenWidth == 0 || s.screenHeight == 0 then Outcome(s, [], Panicked)
        else
        var r := RunOp(s, e1);
        if r.flow == Exit then Outcome(r.state, r.actions, Exited)
        else Prefixed(r.actions, RunMain(r.state, r.env))
      else if k == CtrlI then
        var r := InputMode.RunInput([], e1);
        if r.flow == Exit then Outcome(s, r.actions, Exited)
        else Prefixed(r.actions, RunMain(s, r.env))
      else if k == CtrlC then Outcome(s, [], Quit)
      else RunMain(s, e1)
  }

  /** main's loop, after the keyboard has been opened. */
  method MainLoop(session: Session, io: Inputs) returns (actions: seq<Action>, ending: Ending)
    modifies session, io
    ensures Outcome(session.Model(), actions, ending) == RunMain(old(session.Model()), old(io.Pending()))
  {
    actions := [];
    while true
      invariant RunMain(old(session.Model()), old(io.Pending()))
                == Prefixed(actions, RunMain(session.Model(), io.Pending()))
      decreases |io.keys|
    {
      ghost var s0, e0 := session.Model(), io.Pending();
      var ev := io.GetKey();
      if ev.ReadError? {
        return actions, Panicked;
      }
      if ev.key == CtrlO {
        if session.screenWidth == 0 || session.screenHeight == 0 {
          return actions, Panicked;
        }
        var more, flow := session.OperationMode(io);
        if flow == Exit {
          return actions + more, Exited;
        }
        PrefixedPrefixed(actions, more, RunMain(session.Model(), io.Pending()));
        actions := actions + more;
      } else if ev.key == CtrlI {
        var more, flow := InputMode.InputMode(io);
        if flow == Exit {
          return actions + more, Exited;
        }
        PrefixedPrefixed(actions, more, RunMain(session.Model(), io.Pending()));
        actions := actions + more;
      } else if ev.key == CtrlC {
        return actions, Quit;
      }
    }
  }

  /**
   * Ctrl+I in operation mode returns here rather than entering input mode:
   * a character typed next reaches neither mode and nothing is sent; Ctrl+C
   * then quits from this loop.
   */
  lemma CtrlILeavesForDispatcher(s: State, c: char, caps: seq<seq<string>>)
    requires c != '\0'
    requires s.screenWidth != 0 && s.screenHeight != 0
    ensures RunMain(s, Env([Press('\0', CtrlO), Press('\0', CtrlI), Press(c, NoKey), Press('\0', CtrlC)], caps))
            == Outcome(s, [], Quit)
  {
    var keys := [Press('\0', CtrlO), Press('\0', CtrlI), Press(c, NoKey), Press('\0', CtrlC)];
    var e1 := Env(keys[1..], caps);
    assert RunOp(s, e1) == Step(s, [], Leave, Env(keys[2..], caps)) by {
      assert keys[1..][1..] == keys[2..];
    }
    assert keys[2..][1..] == keys[3..];
    assert RunMain(s, Env(keys[3..], caps)) == Outcome(s, [], Quit);
    assert RunMain(s, Env(keys[2..], caps)) == Outcome(s, [], Quit);
  }

  /** A keyboard error inside a mode returns here, and the next read fails too: the process panics. */
  lemma ClosedKeyboardPanics(s: State, k: Key, caps: seq<seq<string>>)
    requires k == CtrlO || k == CtrlI
    ensures RunMain(s, Env([Press('\0', k)], caps)).ending == Panicked
  {
    var e1 := Env([Press('\0', k)][1..], caps);
    assert e1.keys == [];
  }

  /**
   * A screen size with a zero dimension (which getScreenSize accepts, see
   * ScreenSize.ZeroSizeIsRead) makes Ctrl+O panic: the preview's division by
   * zero runs before the first key of operation mode is read.
   */
  lemma ZeroScreenPanics(s: State, c: char, rest: seq<Keystroke>, caps: seq<seq<string>>)
    requires s.screenWidth == 0 || s.screenHeight == 0
    ensures RunMain(s, Env([Press(c, CtrlO)] + rest, caps)) == Outcome(s, [], Panicked)
  {
    assert ([Press(c, CtrlO)] + rest)[0] == Press(c, CtrlO);
  }
}
