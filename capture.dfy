/**
 * Custom-key capture: the loop that reads `getevent -l` output chunk by
 * chunk, remembers the identifier of the last DOWN event and, at the first
 * UP after one, resolves that identifier to a key-event code.
 */
module Capture {
  import opened Wrappers
  import opened GoStrings

  /** The key names the capture knows, with the key-event codes they stand for. */
  const KeyNames: map<string, string> := map[
    "KEY_VOLUMEUP" := "24",
    "KEY_VOLUMEDOWN" := "25",
    "KEY_POWER" := "26",
    "KEY_CAMERA" := "27",
    "KEY_FOCUS" := "800",
    "KEY_CAMERA_SNAP" := "766"
  ]

  /** What a capture reports: the identifier getevent printed and the code it resolves to. */
  datatype Captured = Captured(raw: string, code: string)

  /**
   * The code for a captured identifier: a known name's code; otherwise the
   * identifier read as a signed 32-bit hexadecimal number, written in decimal;
   * otherwise the identifier itself.
   */
  function Resolve(raw: string): string
  {
    if raw in KeyNames then KeyNames[raw]
    else
      var p := ParseInt(raw, 16, 32);
      if p.Parsed? then FormatInt(p.value, 10) else raw
  }

  /** The capture goroutine's reading loop, given the identifier stored so far. */
  function Scan(chunks: seq<string>, lastDown: string): Option<Captured>
    decreases |chunks|
  {
    if chunks == [] then None
    else
      var line := chunks[0];
      if Contains(line, "DOWN") then
        var parts := Fields(line);
        Scan(chunks[1..], if |parts| >= 3 then parts[2] else lastDown)
      else if Contains(line, "UP") && lastDown != "" then
        Some(Captured(lastDown, Resolve(lastDown)))
      else
        Scan(chunks[1..], lastDown)
  }

  /** The capture goroutine: reads chunk after chunk until one resolves; None when the chunks run out first. */
  method ReadUntilRelease(chunks: seq<string>) returns (result: Option<Captured>)
    ensures result == Scan(chunks, "")
  {
    var lastDownKey := "";
    var i := 0;
    while i < |chunks|
      invariant 0 <= i <= |chunks|
      invariant Scan(chunks, "") == Scan(chunks[i..], lastDownKey)
    {
      var line := chunks[i];
      assert chunks[i..][1..] == chunks[i + 1..];
      if Contains(line, "DOWN") {
        var parts := Fields(line);
        if |parts| >= 3 {
          lastDownKey := parts[2];
        }
      } else if Contains(line, "UP") && lastDownKey != "" {
        return Some(Captured(lastDownKey, Resolve(lastDownKey)));
      }
      i := i + 1;
    }
    return None;
  }

  // ---------------------------------------------------------------------
  // The scan, one chunk at a time
  // ---------------------------------------------------------------------

  /** The stored identifier after a chunk that does not resolve: a DOWN chunk with three fields replaces it with its third. */
  function Track(chunk: string, lastDown: string): string
  {
    if Contains(chunk, "DOWN") then
      var f := Fields(chunk);
      if |f| >= 3 then f[2] else lastDown
    else lastDown
  }

  /** The chunk ends the capture: it says UP but not DOWN, and some identifier is stored. */
  predicate Resolves(chunk: string, lastDown: string)
  {
    !Contains(chunk, "DOWN") && Contains(chunk, "UP") && lastDown != ""
  }

  /** The identifier stored after reading `cs`. */
  function DownKey(cs: seq<string>, lastDown: string): string
    decreases |cs|
  {
    if cs == [] then lastDown else DownKey(cs[1..], Track(cs[0], lastDown))
  }

  /** No chunk of `cs` resolves. */
  predicate Quiet(cs: seq<string>, lastDown: string)
    decreases |cs|
  {
    cs == [] || (!Resolves(cs[0], lastDown) && Quiet(cs[1..], Track(cs[0], lastDown)))
  }

  /** The first chunk that resolves decides the capture, whatever follows it. */
  lemma {:induction false} ScanFirstResolving(pre: seq<string>, c: string, post: seq<string>, lastDown: string)
    requires Quiet(pre, lastDown)
    requires Resolves(c, DownKey(pre, lastDown))
    ensures var k := DownKey(pre, lastDown);
            Scan(pre + [c] + post, lastDown) == Some(Captured(k, Resolve(k)))
    decreases |pre|
  {
    var all := pre + [c] + post;
    if pre == [] {
      assert all[0] == c;
    } else {
      assert all[0] == pre[0];
      assert all[1..] == pre[1..] + [c] + post;
      ScanFirstResolving(pre[1..], c, post, Track(pre[0], lastDown));
    }
  }

  /** The capture finds nothing exactly when no chunk resolves. */
  lemma {:induction false} ScanNoneIffQuiet(cs: seq<string>, lastDown: string)
    ensures Scan(cs, lastDown) == None <==> Quiet(cs, lastDown)
    decreases |cs|
  {
    if cs != [] {
      ScanNoneIffQuiet(cs[1..], Track(cs[0], lastDown));
    }
  }

  /**
   * A capture reports a stored identifier: the one it started with or the
   * third field of a chunk that said DOWN; it is never empty, and the code
   * reported beside it is that identifier resolved.
   */
  lemma {:induction false} ScanReportsStored(cs: seq<string>, lastDown: string)
    requires Scan(cs, lastDown).Some?
    ensures var r := Scan(cs, lastDown).value;
            r.raw != "" && r.code == Resolve(r.raw)
            && (r.raw == lastDown
                || exists i :: 0 <= i < |cs| && Contains(cs[i], "DOWN")
                                && |Fields(cs[i])| >= 3 && Fields(cs[i])[2] == r.raw)
    decreases |cs|
  {
    var r := Scan(cs, lastDown).value;
    if !Resolves(cs[0], lastDown) {
      var next := Track(cs[0], lastDown);
      ScanReportsStored(cs[1..], next);
      if r.raw != lastDown {
        if r.raw == next {
          assert Contains(cs[0], "DOWN") && |Fields(cs[0])| >= 3 && Fields(cs[0])[2] == r.raw;
        } else {
          var i :| 0 <= i < |cs[1..]| && Contains(cs[1..][i], "DOWN")
                   && |Fields(cs[1..][i])| >= 3 && Fields(cs[1..][i])[2] == r.raw;
          assert cs[i + 1] == cs[1..][i];
        }
      }
    }
  }

  /** A chunk that says both DOWN and UP counts as DOWN: it only updates the stored identifier. */
  lemma DownTakesPrecedence(c: string, rest: seq<string>, lastDown: string)
    requires Contains(c, "DOWN")
    ensures Scan([c] + rest, lastDown) == Scan(rest, Track(c, lastDown))
  {
    assert ([c] + rest)[1..] == rest;
  }

  // ---------------------------------------------------------------------
  // Resolution
  // ---------------------------------------------------------------------

  /** Every known name resolves to its code from the table. */
  lemma ResolveKnownName(raw: string)
    requires raw in KeyNames
    ensures Resolve(raw) == KeyNames[raw]
  {
  }

  /** Any 32-bit key code written in hexadecimal resolves to the same code in decimal. */
  lemma ResolveHex(v: int)
    requires -Pow2(31) <= v < Pow2(31)
    ensures Resolve(FormatInt(v, 16)) == FormatInt(v, 10)
  {
    FormatParseRoundTrip(v, 16, 32);
    HexIsNoKeyName(v);
  }

  /**
   * An identifier of hexadecimal digits in either case, with any leading
   * zeros (getevent prints unnamed codes as "%04x") and an optional sign,
   * resolves to its value in decimal when that fits in 32 bits; otherwise it
   * is kept as it is.
   */
  lemma ResolveHexDigits(sign: string, digits: string)
    requires sign == "" || sign == "+" || sign == "-"
    requires digits != [] && AllDigits(digits, 16)
    ensures var v := SignedValue(sign, digits, 16);
            (-Pow2(31) <= v < Pow2(31) ==> Resolve(sign + digits) == FormatInt(v, 10))
            && (!(-Pow2(31) <= v < Pow2(31)) ==> Resolve(sign + digits) == sign + digits)
  {
    var raw := sign + digits;
    ParseIntValue(sign, digits, 16, 32);
    assert raw[0] != 'K' by {
      if sign == "" {
        assert raw[0] == digits[0] && DigitValue(digits[0]) < 16;
      } else {
        assert raw[0] == sign[0];
      }
    }
    NoKeyName(raw);
  }

  /** A zero-padded code as getevent prints it: "00fe" resolves to "254". */
  lemma ResolvePaddedHex()
    ensures Resolve("00fe") == "254"
  {
    PaddedResolves();
    Decimal254();
  }

  lemma PaddedResolves()
    ensures Resolve("00fe") == FormatInt(254, 10)
  {
    PaddedValue();
    Pow2Values();
    ResolveHexDigits("", "00fe");
    assert "" + "00fe" == "00fe";
  }

  lemma Decimal254()
    ensures FormatInt(254, 10) == "254"
  {
    assert FormatNat(2, 10) == "2";
    assert FormatNat(25, 10) == FormatNat(2, 10) + "5";
    assert FormatNat(254, 10) == FormatNat(25, 10) + "4";
  }

  lemma PaddedValue()
    ensures AllDigits("00fe", 16) && SignedValue("", "00fe", 16) == 254
  {
    assert "00fe"[..3] == "00f";
    assert "00f"[..2] == "00";
    assert "00"[..1] == "0";
    assert "0"[..0] == "";
    assert DigitsValue("00", 16) == 0;
    assert DigitsValue("00f", 16) == 15;
    assert DigitsValue("00fe", 16) == 254;
  }

  lemma HexIsNoKeyName(v: int)
    ensures FormatInt(v, 16) !in KeyNames
  {
    var s := FormatInt(v, 16);
    assert s[0] != 'K' by {
      assert s[0] == '-' || DigitValue(s[0]) < 16;
    }
    NoKeyName(s);
  }

  lemma NoKeyName(raw: string)
    requires raw == [] || raw[0] != 'K'
    ensures raw !in KeyNames
  {
    KeyNamesAreWords();
  }

  lemma KeyNamesAreWords()
    ensures forall k :: k in KeyNames ==> |k| > 8 && k[0] == 'K'
  {
  }

  /**
   * An identifier that is not a known name, and is not an optional sign and
   * hexadecimal digits whose value fits in 32 bits, passes through unchanged.
   */
  lemma ResolvePassThrough(raw: string)
    requires raw !in KeyNames
    requires forall sign, digits ::
               (sign == "" || sign == "+" || sign == "-") && digits != [] && AllDigits(digits, 16) && raw == sign + digits
               ==> !(-Pow2(31) <= SignedValue(sign, digits, 16) < Pow2(31))
    ensures Resolve(raw) == raw
  {
    ParseIntParsedShape(raw, 16, 32);
    if ParseInt(raw, 16, 32).Parsed? {
      var sign := SignOf(raw);
      var digits := raw[|sign|..];
      ParseIntValue(sign, digits, 16, 32);
      assert false;
    }
  }

  lemma ResolveVolumeUp()
    ensures Resolve("KEY_VOLUMEUP") == "24"
  {
  }

  lemma ResolveShutter()
    ensures Resolve("KEY_CAMERA_SNAP") == "766"
  {
  }

  lemma ResolveHexExample()
    ensures Resolve("4a") == "74"
  {
    Pow2Values();
    var m := Pow2(32) - 1;
    assert ScanDigits("a", 16, m, 4) == Parsed(74);
    assert ScanDigits("4a", 16, m, 0) == Parsed(74);
    assert ParseInt("4a", 16, 32) == Parsed(74);
    assert FormatInt(74, 10) == "74" by {
      assert FormatNat(74, 10) == FormatNat(7, 10) + "4";
    }
    NoKeyName("4a");
  }

  lemma ResolveUnknownName()
    ensures Resolve("KEY_HOME") == "KEY_HOME"
  {
    assert DigitValue('K') == 20;
    assert ParseInt("KEY_HOME", 16, 32) == SyntaxError;
    assert "KEY_HOME" !in KeyNames by {
      KeyNamesAreWords();
    }
  }

  lemma ResolvePrefixedHex()
    ensures Resolve("0x4a") == "0x4a"
  {
    assert DigitValue('x') == 33;
    assert ScanDigits("x4a", 16, Pow2(32) - 1, 0) == SyntaxError;
    assert ParseInt("0x4a", 16, 32) == SyntaxError;
    NoKeyName("0x4a");
  }

  lemma ResolveOutOfRange()
    ensures Resolve("ffffffff") == "ffffffff"
  {
    Pow2Values();
    var m := Pow2(32) - 1;
    assert ScanDigits("f", 16, m, 0xfff_ffff) == Parsed(0xffff_ffff);
    assert ScanDigits("ff", 16, m, 0xff_ffff) == Parsed(0xffff_ffff);
    assert ScanDigits("fff", 16, m, 0xf_ffff) == Parsed(0xffff_ffff);
    assert ScanDigits("ffff", 16, m, 0xffff) == Parsed(0xffff_ffff);
    assert ScanDigits("fffff", 16, m, 0xfff) == Parsed(0xffff_ffff);
    assert ScanDigits("ffffff", 16, m, 0xff) == Parsed(0xffff_ffff);
    assert ScanDigits("fffffff", 16, m, 0xf) == Parsed(0xffff_ffff);
    assert ScanDigits("ffffffff", 16, m, 0) == Parsed(0xffff_ffff);
    assert ParseInt("ffffffff", 16, 32) == RangeError(0x7fff_ffff);
    NoKeyName("ffffffff");
  }
}
