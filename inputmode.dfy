/**
 * Input mode: every typed character goes to the phone at once as text, Enter
 * and Backspace become key events, and a local strings.Builder echoes what
 * was typed.
 */
module InputMode {
  import opened GoStrings
  import opened Device
  import opened Keys

  /** The builder's bytes, the device calls, and how the loop goes on after one keystroke. */
  datatype InputStep = InputStep(buffer: seq<byte>, actions: seq<Action>, flow: Flow)

  /**
   * One keystroke of inputMode: Ctrl+O leaves, Ctrl+C exits, Backspace drops
   * the builder's last byte and presses DEL (67), Enter writes a newline and
   * presses ENTER (66), and any other keystroke carrying a character writes
   * that character and sends it as text.
   */
  function OnInputKey(buf: seq<byte>, ev: Keystroke): (r: InputStep)
    ensures r.flow == KeyboardError <==> ev.ReadError?
    ensures r.flow == Leave <==> ev.Press? && ev.key == CtrlO
    ensures r.flow == Exit <==> ev.Press? && ev.key == CtrlC
    ensures r.flow != Continue ==> r.buffer == buf && r.actions == []
    ensures r.actions == [] ==> r.buffer == buf
    ensures r.actions != [] ==>
              (|r.actions| == 1
               && ((buf != [] && r.buffer == buf[..|buf| - 1]) || (exists c :: r.buffer == buf + EncodeRune(c))))
  {
    match ev
    case ReadError => InputStep(buf, [], KeyboardError)
    case Press(c, k) =>
      if k == CtrlO then InputStep(buf, [], Leave)
      else if k == CtrlC then InputStep(buf, [], Exit)
      else if k == Backspace then
        if |buf| > 0 then InputStep(buf[..|buf| - 1], [PressKey("67")], Continue)
        else InputStep(buf, [], Continue)
      else if k == Enter then InputStep(buf + EncodeRune('\n'), [PressKey("66")], Continue)
      else if c != '\0' then InputStep(buf + EncodeRune(c), [SendText([c])], Continue)
      else InputStep(buf, [], Continue)
  }

  /** Where input mode's loop ends: the builder, every device call, the way out, and the input not yet read. */
  datatype InputRun = InputRun(buffer: seq<byte>, actions: seq<Action>, flow: Flow, env: Env)

  /** inputMode's loop, from builder contents `buf`. */
  function RunInput(buf: seq<byte>, e: Env): (r: InputRun)
    ensures r.flow != Continue
    ensures |r.env.keys| <= |e.keys|
    decreases |e.keys|
  {
    var (ev, e1) := NextKey(e);
    var st := OnInputKey(buf, ev);
    if st.flow != Continue then InputRun(st.buffer, st.actions, st.flow, e1)
    else
      Prepend(st.actions, RunInput(st.buffer, e1))
  }

  /** A run's outcome with the device calls made before it put in front. */
  function Prepend(pre: seq<Action>, r: InputRun): (q: InputRun)
    ensures q.buffer == r.buffer && q.flow == r.flow && q.env == r.env
    ensures |q.actions| == |pre| + |r.actions|
  {
    r.(actions := pre + r.actions)
  }

  lemma PrependPrepend(a: seq<Action>, b: seq<Action>, r: InputRun)
    ensures Prepend(a, Prepend(b, r)) == Prepend(a + b, r)
  {
    assert a + (b + r.actions) == (a + b) + r.actions;
  }

  /** A keystroke that keeps the mode going hands the rest of the run to the loop, its calls first. */
  lemma ContinueRun(buf: seq<byte>, e: Env)
    requires OnInputKey(buf, NextKey(e).0).flow == Continue
    ensures var st := OnInputKey(buf, NextKey(e).0);
            RunInput(buf, e) == Prepend(st.actions, RunInput(st.buffer, NextKey(e).1))
  {
  }

  /** inputMode: the builder starts empty and is dropped when the mode returns. */
  method InputMode(io: Inputs) returns (actions: seq<Action>, flow: Flow)
    modifies io
    ensures var r := RunInput([], old(io.Pending()));
            actions == r.actions && flow == r.flow && io.Pending() == r.env
  {
    var inputBuffer: seq<byte> := [];
    actions := [];
    while true
      invariant RunInput([], old(io.Pending())) == Prepend(actions, RunInput(inputBuffer, io.Pending()))
      decreases |io.keys|
    {
      ghost var b0, e0 := inputBuffer, io.Pending();
      var ev := io.GetKey();
      if ev.ReadError? {
        return actions, KeyboardError;
      }
      if ev.key == CtrlO {
        return actions, Leave;
      }
      if ev.key == CtrlC {
        return actions, Exit;
      }
      var more: seq<Action> := [];
      if ev.key == Backspace {
        if |inputBuffer| > 0 {
          inputBuffer := inputBuffer[..|inputBuffer| - 1];
          more := [PressKey("67")];
        }
      } else if ev.key == Enter {
        inputBuffer := inputBuffer + EncodeRune('\n');
        more := [PressKey("66")];
      } else if ev.ch != '\0' {
        inputBuffer := inputBuffer + EncodeRune(ev.ch);
        more := [SendText([ev.ch])];
      }
      assert OnInputKey(b0, ev) == InputStep(inputBuffer, more, Continue);
      ContinueRun(b0, e0);
      PrependPrepend(actions, more, RunInput(inputBuffer, io.Pending()));
      actions := actions + more;
    }
  }

  // ---------------------------------------------------------------------
  // Properties
  // ---------------------------------------------------------------------

  /**
   * Characters typed as ordinary keystrokes, each arriving with its
   * character and no key. The keyboard library delivers printable
   * characters this way except the space bar, which arrives as
   * Press('\0', Space) (see SpaceBarSendsNothing).
   */
  function Typed(cs: string): (r: seq<Keystroke>)
    ensures |r| == |cs| && forall i :: 0 <= i < |cs| ==> r[i] == Press(cs[i], NoKey)
  {
    seq(|cs|, i requires 0 <= i < |cs| => Press(cs[i], NoKey))
  }

  /** The UTF-8 bytes strings.Builder holds after WriteRune of each character. */
  function Utf8(cs: string): seq<byte>
    decreases |cs|
  {
    if cs == [] then [] else EncodeRune(cs[0]) + Utf8(cs[1..])
  }

  /** The text the phone receives from a run of calls: each text command with its "%s" read back as spaces. */
  function Received(actions: seq<Action>): string
    decreases |actions|
  {
    if actions == [] then []
    else (if actions[0].Text? then UnescapeSpaces(actions[0].text) else []) + Received(actions[1..])
  }

  function SentOneByOne(cs: string): (r: seq<Action>)
    ensures |r| == |cs| && forall i :: 0 <= i < |cs| ==> r[i] == SendText([cs[i]])
  {
    seq(|cs|, i requires 0 <= i < |cs| => SendText([cs[i]]))
  }

  lemma ReceivedAppend(a: seq<Action>, b: seq<Action>)
    ensures Received(a + b) == Received(a) + Received(b)
    decreases |a|
  {
    if a == [] {
      assert a + b == b;
    } else {
      assert (a + b)[1..] == a[1..] + b;
      ReceivedAppend(a[1..], b);
    }
  }

  /**
   * Typing a string of characters delivered as Press(c, NoKey): each one
   * goes out in its own text command, the builder collects their UTF-8
   * bytes, and Ctrl+O then leaves the mode.
   */
  lemma {:induction false} TypingRun(buf: seq<byte>, cs: string, rest: seq<Keystroke>, caps: seq<seq<string>>)
    requires forall i :: 0 <= i < |cs| ==> cs[i] != '\0'
    ensures RunInput(buf, Env(Typed(cs) + [Press('\0', CtrlO)] + rest, caps))
            == InputRun(buf + Utf8(cs), SentOneByOne(cs), Leave, Env(rest, caps))
    decreases |cs|
  {
    if cs == [] {
      assert Typed(cs) + [Press('\0', CtrlO)] + rest == [Press('\0', CtrlO)] + rest;
      assert buf + Utf8(cs) == buf;
      LeaveInput(buf, rest, caps);
    } else {
      var b1 := buf + EncodeRune(cs[0]);
      TypingFirst(buf, cs, rest, caps);
      TypingRun(b1, cs[1..], rest, caps);
      TypingParts(buf, cs);
    }
  }

  lemma TypingFirst(buf: seq<byte>, cs: string, rest: seq<Keystroke>, caps: seq<seq<string>>)
    requires cs != [] && cs[0] != '\0'
    ensures RunInput(buf, Env(Typed(cs) + [Press('\0', CtrlO)] + rest, caps))
            == Prepend([SendText([cs[0]])], RunInput(buf + EncodeRune(cs[0]), Env(Typed(cs[1..]) + [Press('\0', CtrlO)] + rest, caps)))
  {
    var keys := Typed(cs) + [Press('\0', CtrlO)] + rest;
    var e := Env(keys, caps);
    assert keys[0] == Press(cs[0], NoKey);
    assert keys[1..] == Typed(cs[1..]) + [Press('\0', CtrlO)] + rest;
    TypeStep(buf, cs[0]);
    ContinueRun(buf, e);
  }

  lemma TypingParts(buf: seq<byte>, cs: string)
    requires cs != []
    ensures buf + EncodeRune(cs[0]) + Utf8(cs[1..]) == buf + Utf8(cs)
    ensures [SendText([cs[0]])] + SentOneByOne(cs[1..]) == SentOneByOne(cs)
  {
    Utf8Cons(buf, cs);
    var a, b := [SendText([cs[0]])] + SentOneByOne(cs[1..]), SentOneByOne(cs);
    forall i | 0 <= i < |a| ensures a[i] == b[i] {
      if i > 0 {
        assert a[i] == SentOneByOne(cs[1..])[i - 1];
        assert cs[1..][i - 1] == cs[i];
      }
    }
  }

  lemma Utf8Cons(buf: seq<byte>, cs: string)
    requires cs != []
    ensures buf + EncodeRune(cs[0]) + Utf8(cs[1..]) == buf + Utf8(cs)
  {
  }

  /** Ctrl+O leaves input mode with the builder as it is and nothing sent. */
  lemma LeaveInput(buf: seq<byte>, rest: seq<Keystroke>, caps: seq<seq<string>>)
    ensures RunInput(buf, Env([Press('\0', CtrlO)] + rest, caps)) == InputRun(buf, [], Leave, Env(rest, caps))
  {
    assert ([Press('\0', CtrlO)] + rest)[1..] == rest;
  }

  lemma TypeStep(buf: seq<byte>, c: char)
    requires c != '\0'
    ensures OnInputKey(buf, Press(c, NoKey)) == InputStep(buf + EncodeRune(c), [SendText([c])], Continue)
  {
  }

  /**
   * Text commands of one character each deliver exactly those characters to
   * the phone's input command, "%s" and a space character included (a space
   * is escaped as "%s" and read back). With TypingRun: the characters typed
   * as Press(c, NoKey) arrive in order.
   */
  lemma {:induction false} TypedTextArrives(cs: string)
    ensures Received(SentOneByOne(cs)) == cs
    decreases |cs|
  {
    if cs != [] {
      var c := cs[0];
      assert NoPercentS([c]);
      SendTextArrives([c]);
      assert SentOneByOne(cs) == [SendText([c])] + SentOneByOne(cs[1..]);
      ReceivedAppend([SendText([c])], SentOneByOne(cs[1..]));
      TypedTextArrives(cs[1..]);
      assert [c] + cs[1..] == cs;
    }
  }

  /** Backspace shortens a non-empty builder by exactly one byte and presses DEL; on an empty one it does nothing. */
  lemma BackspaceDropsByte(buf: seq<byte>, ch: char)
    ensures buf == [] ==> OnInputKey(buf, Press(ch, Backspace)) == InputStep(buf, [], Continue)
    ensures buf != [] ==> var r := OnInputKey(buf, Press(ch, Backspace));
                          |r.buffer| == |buf| - 1 && r.buffer + [buf[|buf| - 1]] == buf
                          && r.actions == [KeyEvent("67")] && r.flow == Continue
  {
    if buf != [] {
      assert buf[..|buf| - 1] + [buf[|buf| - 1]] == buf;
    }
  }

  /** Enter writes a newline byte to the builder and presses ENTER. */
  lemma EnterWritesNewline(buf: seq<byte>, ch: char)
    ensures OnInputKey(buf, Press(ch, Enter)) == InputStep(buf + [10 as byte], [KeyEvent("66")], Continue)
  {
  }

  /** Backspace after an ASCII character restores the builder and presses DEL. */
  lemma BackspaceUndoesAscii(buf: seq<byte>, c: char)
    requires '\0' < c < 0x80 as char
    ensures var typed := OnInputKey(buf, Press(c, NoKey));
            OnInputKey(typed.buffer, Press('\0', Backspace)) == InputStep(buf, [KeyEvent("67")], Continue)
  {
    var b := buf + EncodeRune(c);
    assert b[..|b| - 1] == buf;
  }

  /**
   * Backspace removes one byte, not one character: after a character of two
   * or more UTF-8 bytes the builder keeps its leading bytes.
   */
  lemma BackspaceSplitsRune(buf: seq<byte>, c: char)
    requires c >= 0x80 as char
    ensures var typed := OnInputKey(buf, Press(c, NoKey));
            var after := OnInputKey(typed.buffer, Press('\0', Backspace)).buffer;
            |after| == |buf| + |EncodeRune(c)| - 1 > |buf| && after[..|buf|] == buf
  {
    var b := buf + EncodeRune(c);
    assert b[..|b| - 1][..|buf|] == buf;
  }

  /** The key many terminals send for backspace, 0x7F, carries no character and does nothing here. */
  lemma Backspace2DoesNothing(buf: seq<byte>)
    ensures OnInputKey(buf, Press('\0', Backspace2)) == InputStep(buf, [], Continue)
  {
  }

  /**
   * The space bar arrives as Press('\0', Space): no key case handles it and
   * its character is zero, so it writes nothing to the builder and sends
   * nothing to the phone.
   */
  lemma SpaceBarSendsNothing(buf: seq<byte>)
    ensures OnInputKey(buf, Press('\0', Space)) == InputStep(buf, [], Continue)
  {
  }
}
