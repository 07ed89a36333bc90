# adb remote control: a Dafny model of its interactive core

The program is a terminal remote control for an Android phone. It works through `adb`. In **operation mode**:

- the arrow keys move a virtual pointer over the phone screen;
- Enter taps;
- Space starts and ends a drag (a swipe);
- letters press hardware keys;
- `C<digit>` records a custom key, captured live from the phone's `getevent -l` stream;
- `c<digit>` presses a recorded key again.

In **input mode** every keystroke that carries a character goes to the phone as text at once. The space bar does not: it carries no character (see below). A scaled preview box shows where the pointer is. A top-level loop switches between the modes.

This project models that core in Dafny:

- **Device calls are values.** Every `adb` invocation becomes an `Action` value: `Tap`, `Swipe`, `KeyEvent`, `SendEvent`, `Text` or `GetEvent`. Properties can therefore say exactly which calls a keystroke makes.
- **Input is a value too.** The keyboard and the event log are an `Env`: the keystrokes still to come, and for each key capture the chunks `getevent` delivers.
- **Mutable state is a class.** The program's package-level variables are the fields of `Operation.Session`. Its methods update them in place, and each is proved equal to a pure step function (`OpStep`, `RunOp`).
- **Loops are methods.** The capture goroutine's read loop, the frame drawing loops, the record prompt, and the loops of both modes and of `main` are `while` loops. Each is proved against a specification function.
- **Go library semantics are spelled out** in `GoStrings`:
  - `strings.Fields` and `strings.Contains`;
  - `strconv.ParseInt` with its range checks and clamping;
  - `Atoi` with its error ignored, and `FormatInt`/`Itoa`;
  - `ReplaceAll(" ", "%s")`;
  - UTF-8 encoding by `strings.Builder.WriteRune`;
  - Go's truncating integer division.

Modules, one file each:

- `Wrappers`: `Option`.
- `GoStrings`: the Go library behaviour listed above.
- `Device`: `pressKey` routing, `sendText`, `max`/`min`.
- `Keys`: keystrokes, input, the `Inputs` class.
- `Capture`: key-capture scan and resolution.
- `Geometry`: `calculateBoxSize`, the pointer-to-cell mapping, and the frame.
- `ScreenSize`: parsing of the `wm size` reply.
- `Operation`: operation-mode state, step functions and the `Session` class.
- `OperationFacts`: properties of operation mode over runs of keystrokes.
- `InputMode`: input mode.
- `Controller`: `main`'s dispatch loop.

Go's `int` is taken to be 64 bits wide.

### Where the code departs from the program's intended behaviour (the model follows the code)

- **The box may be fewer than 8 rows or columns.** The preview box is meant to be at least 8×8. The code raises only the room (`maxWidth`/`maxHeight`) to 8. The aspect-preserving height or width it returns is not clamped, so a wide device gets a box fewer than 8 rows high (`Geometry.BoxMayBeLowerThanEight`).
- **The trigger prompt ignores Ctrl+C.** The quit key is meant to be honoured at every prompt. The record prompt honours Ctrl+C; the trigger prompt after `c` treats it as an invalid slot (`OperationFacts.TriggerIgnoresCtrlC`).
- **The drag anchor stays.** The anchor is meant to go with the dragging flag. The code never clears the anchor; ending or cancelling a drag only clears `isDragging` (`OperationFacts.DragKeys`).
- **Backspace drops a byte, not a character.** Backspace is meant to trim the buffer's last character. The code drops the last byte of the UTF-8 buffer, which splits a multi-byte character (`InputMode.BackspaceSplitsRune`).
  - Only the keyboard library's `KeyBackspace` (0x08) is handled. The 0x7F code many terminals send arrives without a character and does nothing (`InputMode.Backspace2DoesNothing`).
- **A failed record prompt still records.** A keyboard error in the record prompt leaves the slot character at its zero value. The capture still runs, and a captured key is bound under the name `"c\0"` (`OperationFacts.FailedPromptBindsNul`).
- **The space bar types nothing in input mode.** The keyboard library delivers the space bar as the Space key with a zero character. Input mode has no case for that key, and its default case sends only non-zero characters, so no space ever reaches the phone (`InputMode.SpaceBarSendsNothing`). The `%s` escape in `sendText` is never exercised by typing.
- **A zero screen size panics.** A `wm size` reply of `0x0` is accepted (`ScreenSize.ZeroSizeIsRead`). Entering operation mode then draws the preview, which divides by the screen width and height, and the division by zero panics (`Controller.ZeroScreenPanics`).
- **A keyboard error ends in a panic.** A keyboard error inside a mode returns to the main loop. That loop's own read error panics rather than returning to idle (`Controller.ClosedKeyboardPanics`).

## Model

Some functions compute without a contract of their own and are specified by lemmas:

- `GoStrings.Fields` by `FieldsOfPadded` and `FieldsOfJoin`.
- `GoStrings.ParseInt` by `ParseIntValue` and `ParseIntParsedShape`.
- `ScreenSize.SizeGroups` and `ScreenSize.ParseScreenSize` by `ParseSizeAt`.
- `Capture.Resolve` by `ResolveKnownName`, `ResolveHex`, `ResolveHexDigits` and `ResolvePassThrough`.
- `Capture.Scan` by `ScanFirstResolving`, `ScanNoneIffQuiet` and `ScanReportsStored`.
- `Geometry.Cell` by `CellInBox`, `CellMonotone` and `CellInsideIff`.
- `Geometry.Frame` by `FrameShape`, `FrameGlyphAt` and `FrameGlyphCount`.
- `Operation.OnChar` by `OnCharEffects`.
- `Operation.PointerFrame` by `PointerShownIff` and `Session.PointerArea`.
- `GoStrings.Contains` by `ContainsMeansOccurs`.
- `GoStrings.ParseUint` by `ParseUintValue`.
- `GoStrings.FormatInt` by `FormatIntValue` and `FormatParseRoundTrip`.

| member | source | states |
|---|---|---|
| GoStrings.Fields | main.go:284 | every field strings.Fields returns is non-empty and holds no white space |
| GoStrings.FieldsOfPadded | main.go:284 | words separated by any non-empty runs of white space, with any white space before and after, split back into exactly those words |
| GoStrings.FieldsOfJoin | main.go:284 | splitting words joined by single spaces gives back exactly those words |
| GoStrings.ContainsMeansOccurs | main.go:283 | strings.Contains holds exactly when the word occurs at some index (both directions) |
| GoStrings.EscapeSpaces | main.go:167 | the text sent contains no space |
| GoStrings.UnescapeEscape | main.go:167 | reading "%s" back as a space restores the text, for text that does not itself contain "%s" |
| GoStrings.ScanDigits | main.go:309 | a digit scan that succeeds never goes below its start; one that overflows reports the range limit |
| GoStrings.ScanDigitsValue | main.go:309 | the digit loop reads digits as their positional value (leading zeros and either letter case included), with a range error exactly when the value exceeds the limit |
| GoStrings.ScanDigitsParsedAllDigits | main.go:309 | the digit loop succeeds only when every character is a digit of the base |
| GoStrings.ParseUintValue | main.go:309 | ParseUint of digits is their value when it fits in `bits` bits, and a range error at 2^bits - 1 otherwise |
| GoStrings.ParseInt | main.go:309 | a successful ParseInt(s, base, bits) lies in the signed range of `bits` bits |
| GoStrings.ParseIntValue | main.go:309 | ParseInt of an optional sign and digits is their signed value when it fits in `bits` bits, and a range error otherwise |
| GoStrings.ParseIntParsedShape | main.go:309 | ParseInt succeeds only on an optional sign followed by at least one digit of the base; the empty string, a lone sign, a "0x" prefix or any other character is not parsed |
| GoStrings.AtoiIgnoringError | main.go:53-54 | Atoi with its error ignored always yields a value within the 64-bit int range |
| GoStrings.FormatNat | main.go:311 | a formatted number is non-empty, unsigned, and each of its digits is below the base |
| GoStrings.FormatNatValue | main.go:311 | the digits written have the number as their value and no leading zero |
| GoStrings.FormatIntValue | main.go:311 | FormatInt writes "-" exactly for a negative value, then digits whose signed value is the number |
| GoStrings.FormatParseRoundTrip | main.go:309-311 | parsing what FormatInt wrote, in any base 2-16 and width 2-64, gives back the value whenever it fits |
| GoStrings.EncodeRune | main.go:550-555 | WriteRune writes 1-4 bytes: one exactly for ASCII, two exactly for code points 0x80-0x7FF, three exactly for 0x800-0xFFFF, and a lead byte followed by continuation bytes |
| GoStrings.DecodeEncode | main.go:550-555 | decoding the bytes WriteRune writes gives back the code point |
| Device.PressKey | main.go:138-162 | codes 766 and 800 go through sendevent, every other code through keyevent, and the code is passed on unchanged |
| Device.SendText | main.go:166-171 | the text command carries no space |
| Device.SendTextArrives | main.go:166-171 | the phone, reading "%s" as a space, receives the text sent, for text without a literal "%s" |
| Device.Max | main.go:563-568 | max is at least both arguments and equals one of them |
| Device.Min | main.go:570-575 | min is at most both arguments and equals one of them |
| Keys.NextKey | main.go:346-349 | a read takes the next keystroke; once the keyboard is closed every read fails and consumes nothing |
| Keys.NextCapture | main.go:256-339 | a capture takes the chunks of the next getevent stream, or none when no stream is left |
| Keys.Inputs.GetKey | main.go:346 | reading a key consumes exactly what NextKey says |
| Keys.Inputs.ReadCapture | main.go:256-281 | reading a capture consumes exactly what NextCapture says |
| Capture.ReadUntilRelease | main.go:273-326 | the goroutine's read loop returns what the chunk scan specifies: the first resolving UP after a DOWN, else nothing |
| Capture.ScanFirstResolving | main.go:283-324 | the first chunk that resolves decides the capture, whatever follows it |
| Capture.ScanNoneIffQuiet | main.go:283-324 | the capture finds nothing exactly when no chunk resolves (both directions) |
| Capture.ScanReportsStored | main.go:283-324 | the raw identifier reported is never empty, is the third field of some DOWN chunk (or the stored one), and its code is that identifier resolved |
| Capture.DownTakesPrecedence | main.go:283-288 | a chunk saying both DOWN and UP only updates the stored identifier |
| Capture.ResolveKnownName | main.go:290-306 | a known key name resolves to its code from the table |
| Capture.ResolveHex | main.go:309-316 | any int32, written as FormatInt writes it in hexadecimal, resolves to the same value in decimal |
| Capture.ResolveHexDigits | main.go:307-323 | any signed hexadecimal identifier, leading zeros and either case included, resolves to its value in decimal when that fits in int32, and passes through unchanged when it does not |
| Capture.ResolvePaddedHex | main.go:309-311 | "00fe", as getevent prints it, resolves to "254" |
| Capture.ResolvePassThrough | main.go:318-323 | an identifier that is not a known name, and is not an optional sign and hexadecimal digits whose value fits in int32, is returned unchanged |
| Capture.ResolveVolumeUp | main.go:291 | KEY_VOLUMEUP resolves to 24 |
| Capture.ResolveShutter | main.go:296 | KEY_CAMERA_SNAP resolves to 766 |
| Capture.ResolveHexExample | main.go:309-311 | "4a" resolves to "74" |
| Capture.ResolveUnknownName | main.go:318-323 | an unknown name such as KEY_HOME passes through |
| Capture.ResolvePrefixedHex | main.go:309 | "0x4a" is not accepted by base-16 ParseInt and passes through |
| Capture.ResolveOutOfRange | main.go:309 | "ffffffff" overflows int32 and passes through |
| Geometry.Room | main.go:96-103 | the room is at least 8 and at least the scaled extent less 4, and is one of the two |
| Geometry.BoxSize | main.go:106-120 | the box fits the room, one side fills its room, and the branch taken follows whether the aspect-preserving height, then width, overflows |
| Geometry.BoxMayBeLowerThanEight | main.go:108-111 | an aspect-preserving height below 8 is returned as it is |
| Geometry.BoxForDefaultTerminal | main.go:92-120 | a 1080x1920 phone on an 80x24 terminal gets a 16x15 box |
| Geometry.Quot | main.go:220-221 | Go's truncating division agrees with Dafny's for non-negative dividends |
| Geometry.CellInBox | main.go:220-221 | a pointer on the screen maps to a cell in 0..boxW |
| Geometry.CellMonotone | main.go:220-221 | the cell mapping is monotone in the pointer position |
| Geometry.CellInsideIff | main.go:220-221 | the cell is inside the box exactly when the pointer is short of the screen edge (both directions) |
| Geometry.FrameShape | main.go:231-249 | the frame has boxH + 2 lines, each boxW + 2 wide, with a border first and last |
| Geometry.FrameGlyphAt | main.go:220-243 | a pointer cell inside the box puts the glyph on line gy + 1, column gx + 1 |
| Geometry.RenderFrame | main.go:231-249 | the nested drawing loops build exactly the frame: a border, one row per line, a border |
| Geometry.FrameGlyphCount | main.go:231-249 | the glyph appears once, at row gy + 1 and column gx + 1, exactly when the cell lies in the box, and not at all otherwise |
| ScreenSize.FirstMatch | main.go:48-49 | the position found is the leftmost where (\d+)x(\d+) matches, and none is found only when it matches nowhere |
| ScreenSize.SizeGroups | main.go:49-52 | groups are found exactly when the pattern matches, and both are non-empty digit strings |
| ScreenSize.ParseScreenSize | main.go:47-55 | a size is read exactly when the output matches, and both numbers are non-negative |
| ScreenSize.ParseSizeAt | main.go:47-55 | wherever the leftmost match lies, digits before it included, the size read is its two digit runs, each read with Atoi |
| ScreenSize.GroupsOfWrittenSize | main.go:48-52 | "<digits>x<digits>" after text where no match starts yields those two digit strings as the groups |
| ScreenSize.ParseWrittenSize | main.go:40-57 | the size `wm size` prints, "Physical size: WxH", is read back as (W, H) after any text where no match starts, and whatever follows that is not a digit (a later override size included) |
| ScreenSize.ParseSizeText | main.go:40-57 | a reply ending in W, "x", H, after text where no match starts, is read as (W, H) |
| ScreenSize.ZeroSizeIsRead | main.go:47-57 | a reply ending in "0x0", after text where no match starts, is accepted as a screen size of zero by zero |
| Operation.OnKey | main.go:357-408 | the key switch keeps the pointer on the screen, moves it by at most 15 per axis, never touches the registry, and makes a call only for Enter outside a drag or Space inside one; only the arrows, Space and Esc can change the state |
| Operation.UnhandledKeyDoesNothing | main.go:357-408 | a key the switch has no case for (Backspace, 0x7F, Ctrl+O, Ctrl+I, a character key) changes nothing, makes no call and does not exit |
| Operation.ReadSlotDigit | main.go:419-435 | the record prompt ends with a digit 1-9, Ctrl+C or a keyboard error, having consumed input |
| Operation.Record | main.go:411-447 | recording exits exactly on Ctrl+C in the prompt, and changes at most the registry entry of the slot named by the prompt |
| Operation.OnCharEffects | main.go:410-503 | the character switch changes at most the registry and only for 'C', reads more input only for 'C' and 'c', makes at most one call, presses a shortcut's key, and ignores any other character |
| Operation.Trigger | main.go:483-499 | triggering reads exactly one keystroke, changes no state and makes at most one call |
| Operation.OpStep | main.go:346-503 | a read error ends the mode with the error; Ctrl+I leaves it; the step keeps the screen size and the pointer-on-screen, slot-names-only invariant |
| Operation.RunOp | main.go:343-505 | the mode ends only by leaving, exiting or failing, and keeps the screen size and the invariant |
| Operation.PointerShownIff | main.go:220-249 | the pointer glyph is drawn exactly once while the pointer is short of the right and bottom edges, and not at all on them |
| Operation.Session.constructor | main.go:17-30 | the variables start at 1080x1920 with the pointer at (540, 960), no drag and an empty registry |
| Operation.Session.GetScreenSize | main.go:40-59 | on a match the screen takes the matched size and the pointer moves to its centre; otherwise nothing changes; the invariant is kept |
| Operation.Session.HandleKey | main.go:346-503 | one keystroke updates the fields and makes the calls exactly as OpStep specifies |
| Operation.Session.ApplyKey | main.go:357-408 | the key switch updates the fields as OnKey specifies |
| Operation.Session.ApplyChar | main.go:411-502 | the character switch updates the fields and input as OnChar specifies |
| Operation.Session.RecordKey | main.go:411-447 | recording updates the registry and input as Record specifies |
| Operation.Session.OperationMode | main.go:343-505 | the loop ends where RunOp says, with the same state, calls and remaining input |
| Operation.Session.PointerArea | main.go:201-250 | with a zero screen dimension there is no frame (the division panics); otherwise the lines drawn are the frame with the pointer's cell from the truncating division |
| Operation.PromptSlot | main.go:419-435 | the prompt loop ends as ReadSlotDigit specifies and touches no capture |
| OperationFacts.ArrowMovesOneAxis | main.go:358-369 | one arrow key changes only its own coordinate, by at most 15, stays on the screen, makes no call, leaves the drag alone, and changes nothing only at the edge it points to |
| OperationFacts.KeyStep | main.go:346-408 | a special key other than Ctrl+I and Ctrl+C makes exactly the key switch's calls and keeps the mode going |
| OperationFacts.ContinueRun | main.go:345-504 | after a keystroke that keeps the mode going, the loop carries on from the new state, its calls first |
| OperationFacts.ArrowsOnlyMove | main.go:358-369 | a run of arrow keys changes only the pointer and keeps it on the screen |
| OperationFacts.ArrowsRun | main.go:346-369 | arrow keys make no call and keep the mode going |
| OperationFacts.RepeatedUp | main.go:358-360 | n up-arrows move the pointer up by 15n, stopping at 0, with no call |
| OperationFacts.DragKeys | main.go:370-404 | Space starts a drag at the pointer, Space again swipes anchor-to-pointer in 300 ms and ends it, Esc ends it silently, Enter taps only outside a drag |
| OperationFacts.DragSwipes | main.go:381-397 | Space, any arrows, Space makes exactly one swipe from the start point to where the arrows led |
| OperationFacts.PromptSkipsInvalid | main.go:420-435 | the record prompt ignores every non-digit keystroke and takes the first digit 1-9 |
| OperationFacts.RecordBindsSlot | main.go:438-446 | a captured key binds "c"+digit to its code, overwriting that slot and no other |
| OperationFacts.RecordStep | main.go:411-447 | 'C' then a digit binds that slot to the captured code and consumes both keystrokes and one capture |
| OperationFacts.RecordWithoutCapture | main.go:439-441 | a capture that finds nothing leaves the registry unchanged |
| OperationFacts.TriggerCases | main.go:483-499 | a non-digit looks nothing up, an unbound slot presses nothing, a bound slot presses its code |
| OperationFacts.TriggerStep | main.go:483-499 | 'c' then the digit of a bound slot presses that slot's code |
| OperationFacts.RecordExitsOnCtrlC | main.go:427-430 | Ctrl+C at the record prompt exits with nothing captured |
| OperationFacts.FailedPromptBindsNul | main.go:421-426 | a keyboard error at the record prompt still captures, and binds slot "c\0" |
| OperationFacts.TriggerIgnoresCtrlC | main.go:486-491 | Ctrl+C at the trigger prompt is an invalid slot and the mode goes on |
| OperationFacts.BindThenTrigger | main.go:411-499 | recording a key into a slot and triggering that slot presses the captured code |
| OperationFacts.ShortcutPresses | main.go:452-481 | p + - h b m press 26, 24, 25, 3, 4, 82 through keyevent |
| InputMode.OnInputKey | main.go:524-559 | Ctrl+O leaves, Ctrl+C exits, a read error fails; a step that makes no call keeps the buffer; one that makes a call either drops one byte or appends one character's bytes |
| InputMode.RunInput | main.go:524-560 | input mode ends only by leaving, exiting or failing |
| InputMode.InputMode | main.go:519-561 | the loop ends where RunInput says, with the same calls and remaining input |
| InputMode.TypingRun | main.go:553-557 | characters delivered as keystrokes with a character and no key are each sent in their own text command, and the buffer gains their UTF-8 bytes |
| InputMode.TypedTextArrives | main.go:166-171 | one-character text commands deliver exactly those characters, "%s" and the space character included |
| InputMode.SpaceBarSendsNothing | main.go:536-558 | the space bar, a key with a zero character, leaves the buffer as it is and sends nothing |
| InputMode.BackspaceDropsByte | main.go:540-548 | Backspace on an empty buffer does nothing; otherwise it removes exactly the last byte and presses 67 |
| InputMode.EnterWritesNewline | main.go:549-552 | Enter appends a newline byte and presses 66 |
| InputMode.BackspaceUndoesAscii | main.go:540-557 | Backspace after an ASCII character restores the buffer |
| InputMode.BackspaceSplitsRune | main.go:540-557 | Backspace after a multi-byte character leaves its leading bytes in the buffer |
| InputMode.Backspace2DoesNothing | main.go:540-557 | the 0x7F backspace code, which carries no character, does nothing |
| Controller.RunMain | main.go:607-628 | the dispatcher keeps the screen size and the invariant; with the keyboard closed it panics at once; with a zero screen dimension Ctrl+O panics |
| Controller.MainLoop | main.go:607-628 | the dispatch loop ends where RunMain says, with the same state and calls |
| Controller.CtrlILeavesForDispatcher | main.go:352-355 | Ctrl+I in operation mode returns to the dispatcher: a character typed next is sent nowhere |
| Controller.ZeroScreenPanics | main.go:188-220 | with a zero screen width or height, Ctrl+O panics on entering operation mode, with no call made |
| Controller.ClosedKeyboardPanics | main.go:607-612 | a keyboard error in a mode returns to the dispatcher, whose own read then fails and panics |

## Left out

- **Process spawning and output.** The model does not spawn processes or read their output: `runAdbCommand`, the shell strings of `tap`, `swipe`, `pressKey` and `sendText`, and the first-input-device lookup `pressKey` does for sendevent. Each call is an `Action` value, and a failed call changes no state, so the program's own success and failure reports are not modelled.
- **The capture's concurrency.** The goroutine, channels, `cmd.Process.Kill` and the 5-second timer are not modelled. A capture is the chunks its stream delivers before it fails or times out; the program reacts to both the same way.
- **Floating point in `calculateBoxSize`.** The scale factor, the device aspect ratio and the character aspect ratio are not computed. The scaled terminal size and the two float products (`heightFor`, `widthFor`) are inputs.
- **Environment and terminal.** The environment variables, the terminal size query and the choice of fill character are inputs (`TERM_BOX_SCALE`, `TERM_CHAR_ASPECT_RATIO`, `TERM_DENSE_FILL`, `term.GetSize`). `displayPointerArea` is modelled from the box size on.
- **Terminal echo.** `stty -echo` and the deferred `stty echo` are foreign calls. The deferred restore runs only when `operationMode` returns, never on `os.Exit`, so no restore guarantee is stated.
- **Output, timing and the keyboard.** `fmt` output, `clearScreen`, `displayOperationUI`, `time.Sleep`, `keyboard.Open` and `keyboard.Close` are not modelled.
- **Process ending.** `os.Exit(0)` and `panic` are not performed. They are outcomes: `Exit` from a mode, and `Exited` or `Panicked` from the dispatch loop.
- **The startup checks in `main`.** `LookPath` for adb, the `"device"` substring check of `adb devices`, and the warning when the screen size cannot be read are I/O wiring and are not modelled. `Session.GetScreenSize` models the screen-size query itself.
- **Operation.OnKey:** coordinates are unbounded integers. In the program, `currentX + 15` and `currentY + 15` wrap around when the pointer lies within 15 of Go's 64-bit `int` limit, which a screen size near that limit allows; the model does not capture that wrap-around.
- **Geometry.Cell:** the product of a coordinate and the box width is unbounded, so Go's 64-bit wrap-around of `currentX * boxWidth` for huge screen sizes is not modelled.
- **Operation.PointerFrame:** it inherits Geometry.Cell's unbounded product.
- **The device shell's reading of text.** `adb shell input text` goes through the phone's shell, which would re-parse `&`, `;`, `|` and quotes in the text. The model treats the text command as delivering its argument as written, with only `%s` read back as a space.
- **Inputs.Pending:** the keyboard is modelled as a finite list of keystrokes. Once the list is exhausted, every further read fails, as a closed keyboard does.
