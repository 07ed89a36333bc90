/**
 * The parts of Go's `strings`, `strconv` and `strings.Builder` that the
 * controller relies on, stated over Dafny strings. Every Go string the
 * controller handles here is ASCII or a single character, so a string is a
 * sequence of characters; only the input-mode buffer is kept as bytes.
 */
module GoStrings {

  newtype byte = b: int | 0 <= b < 256

  // ---------------------------------------------------------------------
  // strings.Fields
  // ---------------------------------------------------------------------

  /** unicode.IsSpace: the characters with the Unicode White_Space property. */
  predicate IsSpace(c: char)
  {
    var n := c as int;
    (9 <= n <= 13) || n == 32 || n == 0x85 || n == 0xA0 || n == 0x1680
    || (0x2000 <= n <= 0x200A) || n == 0x2028 || n == 0x2029 || n == 0x202F
    || n == 0x205F || n == 0x3000
  }

  /** A field: a non-empty run of characters none of which is a space. */
  predicate IsField(w: string)
  {
    w != [] && forall i :: 0 <= i < |w| ==> !IsSpace(w[i])
  }

  /** The length of the run of non-space characters that starts `s`. */
  function WordLength(s: string): (n: nat)
    ensures n <= |s|
    ensures forall i :: 0 <= i < n ==> !IsSpace(s[i])
    ensures n < |s| ==> IsSpace(s[n])
  {
    if s == [] || IsSpace(s[0]) then 0 else 1 + WordLength(s[1..])
  }

  /** strings.Fields: the maximal runs of non-space characters of `s`, in order. */
  function Fields(s: string): (r: seq<string>)
    ensures forall i :: 0 <= i < |r| ==> IsField(r[i])
    decreases |s|
  {
    if s == [] then []
    else if IsSpace(s[0]) then Fields(s[1..])
    else
      var n := WordLength(s);
      [s[..n]] + Fields(s[n..])
  }

  /** Fields separated by single spaces: what Fields takes apart. */
  function JoinSpaced(ws: seq<string>): string
  {
    if ws == [] then ""
    else if |ws| == 1 then ws[0]
    else ws[0] + " " + JoinSpaced(ws[1..])
  }

  lemma {:induction false} WordLengthOfField(w: string, t: string)
    requires IsField(w)
    requires t == [] || IsSpace(t[0])
    ensures WordLength(w + t) == |w|
    decreases |w|
  {
    assert (w + t)[0] == w[0];
    if |w| == 1 {
      assert (w + t)[1..] == t;
    } else {
      assert (w + t)[1..] == w[1..] + t;
      WordLengthOfField(w[1..], t);
    }
  }

  /** Splitting a line of space-separated fields gives those fields back. */
  lemma {:induction false} FieldsOfJoin(ws: seq<string>)
    requires forall i :: 0 <= i < |ws| ==> IsField(ws[i])
    ensures Fields(JoinSpaced(ws)) == ws
    decreases |ws|
  {
    if ws == [] {
    } else if |ws| == 1 {
      WordLengthOfField(ws[0], []);
      assert ws[0] + [] == ws[0];
      assert ws[0][..|ws[0]|] == ws[0];
      assert ws[0][|ws[0]|..] == [];
    } else {
      var rest := JoinSpaced(ws[1..]);
      var s := ws[0] + " " + rest;
      assert s == ws[0] + (" " + rest);
      WordLengthOfField(ws[0], " " + rest);
      assert s[0] == ws[0][0];
      assert s[..|ws[0]|] == ws[0];
      assert s[|ws[0]|..] == " " + rest;
      assert (" " + rest)[1..] == rest;
      FieldsOfJoin(ws[1..]);
      assert Fields(" " + rest) == Fields(rest);
    }
  }

  /** A run of white space (possibly empty), as getevent pads its columns with. */
  predicate AllSpace(g: string)
  {
    forall i :: 0 <= i < |g| ==> IsSpace(g[i])
  }

  /**
   * Words laid out between gaps of white space: gaps[0], ws[0], gaps[1],
   * ws[1], ..., ws[n-1], gaps[n].
   */
  function Padded(ws: seq<string>, gaps: seq<string>): string
    requires |gaps| == |ws| + 1
    decreases |ws|
  {
    if ws == [] then gaps[0] else gaps[0] + ws[0] + Padded(ws[1..], gaps[1..])
  }

  /** Leading white space does not change the fields. */
  lemma {:induction false} FieldsSkipsSpace(g: string, t: string)
    requires AllSpace(g)
    ensures Fields(g + t) == Fields(t)
    decreases |g|
  {
    if g != [] {
      assert (g + t)[0] == g[0];
      assert (g + t)[1..] == g[1..] + t;
      FieldsSkipsSpace(g[1..], t);
    } else {
      assert g + t == t;
    }
  }

  /**
   * strings.Fields takes a padded line apart into exactly its words, in
   * order, whatever white space separates them, leads or trails.
   */
  lemma {:induction false} FieldsOfPadded(ws: seq<string>, gaps: seq<string>)
    requires |gaps| == |ws| + 1
    requires forall i :: 0 <= i < |ws| ==> IsField(ws[i])
    requires forall i :: 0 <= i < |gaps| ==> AllSpace(gaps[i])
    requires forall i :: 0 < i < |ws| ==> gaps[i] != []
    ensures Fields(Padded(ws, gaps)) == ws
    decreases |ws|
  {
    if ws == [] {
      FieldsSkipsSpace(gaps[0], []);
      assert gaps[0] + [] == gaps[0];
    } else {
      var rest := Padded(ws[1..], gaps[1..]);
      FieldsOfPadded(ws[1..], gaps[1..]);
      PaddedGapFirst(ws, gaps);
      FieldsOfWordThen(ws[0], rest);
      FieldsSkipsSpace(gaps[0], ws[0] + rest);
      assert Padded(ws, gaps) == gaps[0] + (ws[0] + rest);
    }
  }

  /** After the first word of a padded line comes white space or nothing. */
  lemma PaddedGapFirst(ws: seq<string>, gaps: seq<string>)
    requires |gaps| == |ws| + 1 && ws != []
    requires forall i :: 0 <= i < |gaps| ==> AllSpace(gaps[i])
    requires forall i :: 0 < i < |ws| ==> gaps[i] != []
    ensures var rest := Padded(ws[1..], gaps[1..]);
            rest == [] || IsSpace(rest[0])
  {
    var rest := Padded(ws[1..], gaps[1..]);
    if |ws| > 1 {
      assert rest == gaps[1] + ws[1] + Padded(ws[2..], gaps[2..]);
      assert rest[0] == gaps[1][0];
    } else {
      assert rest == gaps[1];
    }
  }

  /** A field followed by white space or nothing is the first of the fields. */
  lemma FieldsOfWordThen(w: string, rest: string)
    requires IsField(w)
    requires rest == [] || IsSpace(rest[0])
    ensures Fields(w + rest) == [w] + Fields(rest)
  {
    var s := w + rest;
    WordLengthOfField(w, rest);
    assert s[0] == w[0];
    assert s[..|w|] == w;
    assert s[|w|..] == rest;
  }

  // ---------------------------------------------------------------------
  // strings.Contains
  // ---------------------------------------------------------------------

  /** `w` occurs in `s` starting at index `i`. */
  predicate OccursAt(s: string, w: string, i: int)
  {
    0 <= i && i + |w| <= |s| && s[i..i + |w|] == w
  }

  /** strings.Contains, as a scan from the left. */
  function Contains(s: string, w: string): bool
    decreases |s|
  {
    if |w| > |s| then false
    else s[..|w|] == w || Contains(s[1..], w)
  }

  lemma {:induction false} ContainsMeansOccurs(s: string, w: string)
    ensures Contains(s, w) <==> exists i :: OccursAt(s, w, i)
    decreases |s|
  {
    if |w| > |s| {
    } else if s[..|w|] == w {
      assert OccursAt(s, w, 0);
    } else {
      ContainsMeansOccurs(s[1..], w);
      if exists i :: OccursAt(s, w, i) {
        var i :| OccursAt(s, w, i);
        assert i != 0;
        assert s[1..][i - 1..i - 1 + |w|] == s[i..i + |w|];
        assert OccursAt(s[1..], w, i - 1);
      }
      if exists i :: OccursAt(s[1..], w, i) {
        var i :| OccursAt(s[1..], w, i);
        assert s[1..][i..i + |w|] == s[i + 1..i + 1 + |w|];
        assert OccursAt(s, w, i + 1);
      }
    }
  }

  /** A witness position is enough to show that `s` contains `w`. */
  lemma ContainsAt(s: string, w: string, i: int)
    requires OccursAt(s, w, i)
    ensures Contains(s, w)
  {
    ContainsMeansOccurs(s, w);
  }

  // ---------------------------------------------------------------------
  // strings.ReplaceAll(text, " ", "%s") and the device's reading of it
  // ---------------------------------------------------------------------

  /** strings.ReplaceAll(s, " ", "%s"). */
  function EscapeSpaces(s: string): (r: string)
    ensures forall i :: 0 <= i < |r| ==> r[i] != ' '
  {
    if s == [] then ""
    else (if s[0] == ' ' then "%s" else [s[0]]) + EscapeSpaces(s[1..])
  }

  /** How the device's `input text` command reads its argument: "%s" stands for a space. */
  function UnescapeSpaces(t: string): string
  {
    if t == [] then ""
    else if |t| >= 2 && t[0] == '%' && t[1] == 's' then " " + UnescapeSpaces(t[2..])
    else [t[0]] + UnescapeSpaces(t[1..])
  }

  /** `s` never has a '%' directly followed by an 's'. */
  predicate NoPercentS(s: string)
  {
    forall i :: 0 < i < |s| ==> !(s[i - 1] == '%' && s[i] == 's')
  }

  /** The device reads back exactly the text that was escaped, unless that text itself held "%s". */
  lemma {:induction false} UnescapeEscape(s: string)
    requires NoPercentS(s)
    ensures UnescapeSpaces(EscapeSpaces(s)) == s
    decreases |s|
  {
    if s != [] {
      var rest := EscapeSpaces(s[1..]);
      assert NoPercentS(s[1..]) by {
        forall i | 0 < i < |s[1..]| ensures !(s[1..][i - 1] == '%' && s[1..][i] == 's') {
          assert s[1..][i - 1] == s[i] && s[1..][i] == s[i + 1];
        }
      }
      UnescapeEscape(s[1..]);
      if s[0] == ' ' {
        assert EscapeSpaces(s) == "%s" + rest;
        assert ("%s" + rest)[2..] == rest;
        assert s == " " + s[1..];
      } else {
        assert EscapeSpaces(s) == [s[0]] + rest;
        if s[0] == '%' && |rest| >= 1 {
          assert s[1] != 's';
          assert rest[0] != 's';
        }
        assert ([s[0]] + rest)[1..] == rest;
        assert s == [s[0]] + s[1..];
      }
    }
  }

  // ---------------------------------------------------------------------
  // strconv.ParseInt, strconv.Atoi, strconv.FormatInt / Itoa
  // ---------------------------------------------------------------------

  /** The value strconv gives a digit character (letters count from 10, either case); 36 for anything else. */
  function DigitValue(c: char): (d: nat)
    ensures d <= 36
  {
    if '0' <= c <= '9' then (c as int) - ('0' as int)
    else if 'a' <= c <= 'z' then (c as int) - ('a' as int) + 10
    else if 'A' <= c <= 'Z' then (c as int) - ('A' as int) + 10
    else 36
  }

  /** The lower-case digit strconv writes for `d`. */
  function DigitChar(d: nat): (c: char)
    requires d < 16
    ensures DigitValue(c) == d
    ensures c != '+' && c != '-'
  {
    if d < 10 then (('0' as int) + d) as char else (('a' as int) + d - 10) as char
  }

  function Pow2(n: nat): (p: int)
    ensures p >= 1
  {
    if n == 0 then 1 else 2 * Pow2(n - 1)
  }

  /** The outcome of a strconv parse: a value, a syntax error, or a range error with the clamped value strconv returns beside it. */
  datatype NumResult = Parsed(value: int) | SyntaxError | RangeError(clamped: int)

  /**
   * The digit loop of strconv.ParseUint: reads `s` left to right on top of
   * `acc` and stops at the first character that is not a digit of `base` (a
   * syntax error) or at the first prefix whose value exceeds `maxVal` (a range
   * error, reported with `maxVal`).
   */
  function ScanDigits(s: string, base: nat, maxVal: nat, acc: nat): (r: NumResult)
    ensures r.Parsed? ==> r.value >= acc
    ensures r.RangeError? ==> r.clamped == maxVal
    decreases |s|
  {
    if s == [] then Parsed(acc)
    else
      var d := DigitValue(s[0]);
      if d >= base then SyntaxError
      else if acc * base + d > maxVal then RangeError(maxVal)
      else
        MulGrows(acc, base);
        ScanDigits(s[1..], base, maxVal, acc * base + d)
  }

  lemma MulGrows(a: nat, b: nat)
    requires b >= 1
    ensures a * b >= a
  {
    assert a * b - a == a * (b - 1);
  }

  /** strconv.ParseUint(s, base, bits) with an explicit base. */
  function ParseUint(s: string, base: nat, bits: nat): NumResult
  {
    if s == [] then SyntaxError else ScanDigits(s, base, Pow2(bits) - 1, 0)
  }

  /** strconv.ParseInt(s, base, bits) with an explicit base: an optional sign, then digits; no prefix, no underscores. */
  function ParseInt(s: string, base: nat, bits: nat): (r: NumResult)
    requires 2 <= base <= 36 && 2 <= bits <= 64
    ensures r.Parsed? ==> -Pow2(bits - 1) <= r.value < Pow2(bits - 1)
  {
    if s == [] then SyntaxError
    else
      var neg := s[0] == '-';
      var digits := if s[0] == '+' || s[0] == '-' then s[1..] else s;
      var u := ParseUint(digits, base, bits);
      if u.SyntaxError? then SyntaxError
      else
        var un := if u.Parsed? then u.value else u.clamped;
        var cutoff := Pow2(bits - 1);
        if !neg && un >= cutoff then RangeError(cutoff - 1)
        else if neg && un > cutoff then RangeError(-cutoff)
        else
          var n := if neg then -un else un;
          if u.RangeError? then RangeError(n) else Parsed(n)
  }

  /** strconv.Atoi (64-bit int) with its error discarded: the value, the clamped value on overflow, or 0 on a syntax error. */
  function AtoiIgnoringError(s: string): (v: int)
    ensures -Pow2(63) <= v < Pow2(63)
  {
    var r := ParseInt(s, 10, 64);
    if r.Parsed? then r.value
    else if r.RangeError? then
      (if r.clamped < -Pow2(63) || r.clamped >= Pow2(63) then 0 else r.clamped)
    else 0
  }

  /** The digits of `n` in `base`, most significant first, without leading zeros. */
  function FormatNat(n: nat, base: nat): (s: string)
    requires 2 <= base <= 16
    ensures s != [] && s[0] != '+' && s[0] != '-'
    ensures forall i :: 0 <= i < |s| ==> DigitValue(s[i]) < base
    decreases n
  {
    if n < base then [DigitChar(n)]
    else
      DivStep(n, base);
      FormatNat(n / base, base) + [DigitChar(n % base)]
  }

  lemma DivStep(n: nat, base: nat)
    requires 2 <= base <= n
    ensures 0 < n / base < n && n % base < base && (n / base) * base + n % base == n
  {
    var q, m := n / base, n % base;
    assert q * base + m == n;
    assert q >= 1;
    assert q * base >= q * 2 by {
      assert q * base - q * 2 == q * (base - 2);
    }
  }

  /** strconv.FormatInt(v, base); strconv.Itoa(v) is FormatInt(v, 10). */
  function FormatInt(v: int, base: nat): string
    requires 2 <= base <= 16
  {
    if v < 0 then "-" + FormatNat(-v, base) else FormatNat(v, base)
  }

  lemma {:induction false} ScanDigitsAppend(s: string, c: char, base: nat, maxVal: nat, acc: nat, v: nat)
    requires ScanDigits(s, base, maxVal, acc) == Parsed(v)
    requires DigitValue(c) < base
    requires v * base + DigitValue(c) <= maxVal
    ensures ScanDigits(s + [c], base, maxVal, acc) == Parsed(v * base + DigitValue(c))
    decreases |s|
  {
    if s == [] {
      assert s + [c] == [c];
      assert [c][1..] == [];
    } else {
      var d := DigitValue(s[0]);
      assert (s + [c])[0] == s[0];
      assert (s + [c])[1..] == s[1..] + [c];
      ScanDigitsAppend(s[1..], c, base, maxVal, acc * base + d, v);
    }
  }

  lemma {:induction false} ScanFormatNat(n: nat, base: nat, maxVal: nat)
    requires 2 <= base <= 16 && n <= maxVal
    ensures ScanDigits(FormatNat(n, base), base, maxVal, 0) == Parsed(n)
    decreases n
  {
    if n < base {
      var c := DigitChar(n);
      assert FormatNat(n, base) == [c];
      assert [c][1..] == [];
    } else {
      var q, m := n / base, n % base;
      DivStep(n, base);
      ScanFormatNat(q, base, maxVal);
      ScanDigitsAppend(FormatNat(q, base), DigitChar(m), base, maxVal, 0, q);
    }
  }

  /** Every character of `s` is a digit of `base`. */
  predicate AllDigits(s: string, base: nat)
  {
    forall i :: 0 <= i < |s| ==> DigitValue(s[i]) < base
  }

  /** The positional value of a digit string, most significant digit first; leading zeros add nothing. */
  function DigitsValue(s: string, base: nat): nat
    decreases |s|
  {
    if s == [] then 0 else DigitsValue(s[..|s| - 1], base) * base + DigitValue(s[|s| - 1])
  }

  /** The value a sign ("", "+" or "-") and a digit string stand for. */
  function SignedValue(sign: string, digits: string, base: nat): int
  {
    if sign == "-" then -(DigitsValue(digits, base) as int) else DigitsValue(digits, base)
  }

  /** Appending one character to a scan: the digit loop's outcome one step later. */
  lemma {:induction false} ScanDigitsSnoc(s: string, c: char, base: nat, maxVal: nat, acc: nat)
    ensures var r := ScanDigits(s, base, maxVal, acc);
            ScanDigits(s + [c], base, maxVal, acc)
            == if !r.Parsed? then r
               else if DigitValue(c) >= base then SyntaxError
               else if r.value * base + DigitValue(c) > maxVal then RangeError(maxVal)
               else Parsed(r.value * base + DigitValue(c))
    decreases |s|
  {
    if s == [] {
      assert s + [c] == [c];
      assert [c][1..] == [];
    } else {
      var d := DigitValue(s[0]);
      assert (s + [c])[0] == s[0];
      assert (s + [c])[1..] == s[1..] + [c];
      if d < base && acc * base + d <= maxVal {
        ScanDigitsSnoc(s[1..], c, base, maxVal, acc * base + d);
      }
    }
  }

  /**
   * The digit loop reads a string of digits as its positional value, leading
   * zeros and either letter case included, and reports a range error
   * exactly when that value exceeds the limit.
   */
  lemma {:induction false} ScanDigitsValue(s: string, base: nat, maxVal: nat)
    requires 2 <= base && AllDigits(s, base)
    ensures DigitsValue(s, base) <= maxVal ==> ScanDigits(s, base, maxVal, 0) == Parsed(DigitsValue(s, base))
    ensures DigitsValue(s, base) > maxVal ==> ScanDigits(s, base, maxVal, 0) == RangeError(maxVal)
    decreases |s|
  {
    if s != [] {
      var p, c := s[..|s| - 1], s[|s| - 1];
      assert s == p + [c];
      assert AllDigits(p, base);
      ScanDigitsValue(p, base, maxVal);
      ScanDigitsSnoc(p, c, base, maxVal, 0);
      MulGrows(DigitsValue(p, base), base);
    }
  }

  /**
   * ParseInt of an optional sign and digits: the signed positional value
   * when it fits in `bits` bits, a range error when it does not.
   */
  lemma ParseIntValue(sign: string, digits: string, base: nat, bits: nat)
    requires 2 <= base <= 36 && 2 <= bits <= 64
    requires sign == "" || sign == "+" || sign == "-"
    requires digits != [] && AllDigits(digits, base)
    ensures var v := SignedValue(sign, digits, base);
            (-Pow2(bits - 1) <= v < Pow2(bits - 1) ==> ParseInt(sign + digits, base, bits) == Parsed(v))
            && (!(-Pow2(bits - 1) <= v < Pow2(bits - 1)) ==> ParseInt(sign + digits, base, bits).RangeError?)
  {
    var s := sign + digits;
    Pow2Step(bits);
    ParseUintValue(digits, base, bits);
    if sign == "" {
      assert s == digits;
      assert DigitValue(s[0]) < base;
      ParseIntUnsigned(s, digits, base, bits);
    } else {
      assert s[0] == sign[0];
      assert s[1..] == digits;
      if sign == "+" {
        ParseIntUnsigned(s, digits, base, bits);
      } else {
        ParseIntNegative(s, digits, base, bits);
      }
    }
  }

  /** ParseInt when the digits follow no sign or a '+'. */
  lemma ParseIntUnsigned(s: string, digits: string, base: nat, bits: nat)
    requires 2 <= base <= 36 && 2 <= bits <= 64
    requires s != [] && s[0] != '-'
    requires digits == if s[0] == '+' then s[1..] else s
    requires digits != [] && AllDigits(digits, base)
    requires Pow2(bits) == 2 * Pow2(bits - 1)
    requires DigitsValue(digits, base) < Pow2(bits) ==> ParseUint(digits, base, bits) == Parsed(DigitsValue(digits, base))
    requires DigitsValue(digits, base) >= Pow2(bits) ==> ParseUint(digits, base, bits) == RangeError(Pow2(bits) - 1)
    ensures var v := DigitsValue(digits, base);
            (v < Pow2(bits - 1) ==> ParseInt(s, base, bits) == Parsed(v))
            && (v >= Pow2(bits - 1) ==> ParseInt(s, base, bits).RangeError?)
  {
  }

  /** ParseInt when the digits follow a '-'. */
  lemma ParseIntNegative(s: string, digits: string, base: nat, bits: nat)
    requires 2 <= base <= 36 && 2 <= bits <= 64
    requires s != [] && s[0] == '-' && digits == s[1..]
    requires digits != [] && AllDigits(digits, base)
    requires Pow2(bits) == 2 * Pow2(bits - 1)
    requires DigitsValue(digits, base) < Pow2(bits) ==> ParseUint(digits, base, bits) == Parsed(DigitsValue(digits, base))
    requires DigitsValue(digits, base) >= Pow2(bits) ==> ParseUint(digits, base, bits) == RangeError(Pow2(bits) - 1)
    ensures var v := DigitsValue(digits, base);
            (v <= Pow2(bits - 1) ==> ParseInt(s, base, bits) == Parsed(-(v as int)))
            && (v > Pow2(bits - 1) ==> ParseInt(s, base, bits).RangeError?)
  {
  }

  /** The digit loop succeeds only on a string made entirely of digits of `base`. */
  lemma {:induction false} ScanDigitsParsedAllDigits(s: string, base: nat, maxVal: nat, acc: nat)
    ensures ScanDigits(s, base, maxVal, acc).Parsed? ==> AllDigits(s, base)
    decreases |s|
  {
    if s != [] {
      var d := DigitValue(s[0]);
      if d < base && acc * base + d <= maxVal {
        ScanDigitsParsedAllDigits(s[1..], base, maxVal, acc * base + d);
        if ScanDigits(s, base, maxVal, acc).Parsed? {
          forall i | 0 <= i < |s| ensures DigitValue(s[i]) < base {
            if i > 0 {
              assert s[i] == s[1..][i - 1];
            }
          }
        }
      }
    }
  }

  /** The sign ParseInt strips: a leading '+' or '-', or nothing. */
  function SignOf(s: string): (sign: string)
    ensures sign == "" || sign == "+" || sign == "-"
    ensures |sign| <= |s| && sign == s[..|sign|]
  {
    if s != [] && (s[0] == '+' || s[0] == '-') then [s[0]] else ""
  }

  /**
   * ParseInt succeeds only on an optional sign followed by at least one digit
   * of `base`: anything else (the empty string, a lone sign, a prefix such
   * as "0x", any other character) is not parsed.
   */
  lemma ParseIntParsedShape(s: string, base: nat, bits: nat)
    requires 2 <= base <= 36 && 2 <= bits <= 64
    ensures ParseInt(s, base, bits).Parsed? ==>
              var sign := SignOf(s);
              var digits := s[|sign|..];
              digits != [] && AllDigits(digits, base) && s == sign + digits
  {
    if ParseInt(s, base, bits).Parsed? {
      var sign := SignOf(s);
      var digits := s[|sign|..];
      assert s == sign + digits;
      ScanDigitsParsedAllDigits(digits, base, Pow2(bits) - 1, 0);
    }
  }

  /** ParseUint of a digit string: its positional value when it fits in `bits` bits, a range error at the limit when not. */
  lemma ParseUintValue(s: string, base: nat, bits: nat)
    requires 2 <= base && s != [] && AllDigits(s, base)
    ensures DigitsValue(s, base) < Pow2(bits) ==> ParseUint(s, base, bits) == Parsed(DigitsValue(s, base))
    ensures DigitsValue(s, base) >= Pow2(bits) ==> ParseUint(s, base, bits) == RangeError(Pow2(bits) - 1)
  {
    ScanDigitsValue(s, base, Pow2(bits) - 1);
  }

  /** FormatNat writes digits of `base` whose positional value is `n`, with no leading zero. */
  lemma {:induction false} FormatNatValue(n: nat, base: nat)
    requires 2 <= base <= 16
    ensures var s := FormatNat(n, base);
            AllDigits(s, base) && DigitsValue(s, base) == n && (n > 0 ==> DigitValue(s[0]) != 0)
    decreases n
  {
    var s := FormatNat(n, base);
    if n >= base {
      DivStep(n, base);
      var p := FormatNat(n / base, base);
      FormatNatValue(n / base, base);
      assert s == p + [DigitChar(n % base)];
      assert s[..|s| - 1] == p;
      assert s[0] == p[0];
    }
  }

  /** FormatInt writes a minus sign for a negative value, then digits whose signed value is `v`. */
  lemma FormatIntValue(v: int, base: nat)
    requires 2 <= base <= 16
    ensures var s := FormatInt(v, base);
            var sign := if v < 0 then "-" else "";
            s == sign + s[|sign|..] && AllDigits(s[|sign|..], base) && SignedValue(sign, s[|sign|..], base) == v
  {
    var n: nat := if v < 0 then -v else v;
    FormatNatValue(n, base);
    var s := FormatInt(v, base);
    if v < 0 {
      assert s[1..] == FormatNat(n, base);
    }
  }

  lemma Pow2Values()
    ensures Pow2(31) == 0x8000_0000 && Pow2(32) == 0x1_0000_0000
  {
    assert Pow2(8) == 256;
    Pow2Add(8, 8);
    Pow2Add(16, 15);
    Pow2Add(16, 16);
    assert Pow2(15) == 0x8000 by { Pow2Add(8, 7); }
  }

  lemma {:induction false} Pow2Add(a: nat, b: nat)
    ensures Pow2(a + b) == Pow2(a) * Pow2(b)
    decreases b
  {
    if b > 0 {
      Pow2Add(a, b - 1);
      assert Pow2(a + b) == 2 * Pow2(a + b - 1);
    }
  }

  lemma Pow2Step(n: nat)
    requires n >= 1
    ensures Pow2(n) == 2 * Pow2(n - 1)
  {
  }

  /** Parsing what FormatInt wrote gives the number back, for every value that fits in `bits` bits. */
  lemma FormatParseRoundTrip(v: int, base: nat, bits: nat)
    requires 2 <= base <= 16 && 2 <= bits <= 64
    requires -Pow2(bits - 1) <= v < Pow2(bits - 1)
    ensures ParseInt(FormatInt(v, base), base, bits) == Parsed(v)
  {
    var n: nat := if v < 0 then -v else v;
    Pow2Step(bits);
    ScanFormatNat(n, base, Pow2(bits) - 1);
    var s := FormatInt(v, base);
    if v < 0 {
      assert s[0] == '-';
      assert s[1..] == FormatNat(n, base);
    } else {
      assert s == FormatNat(n, base);
    }
  }

  // ---------------------------------------------------------------------
  // strings.Builder.WriteRune
  // ---------------------------------------------------------------------

  /** A UTF-8 continuation byte (10xxxxxx). */
  predicate IsContinuation(b: byte)
  {
    0x80 <= b < 0xC0
  }

  /** The UTF-8 bytes of one character, as WriteRune appends them: a lead byte, then continuation bytes. */
  function EncodeRune(c: char): (bs: seq<byte>)
    ensures 1 <= |bs| <= 4
    ensures (|bs| == 1) == (c as int < 0x80)
    ensures (|bs| == 2) == (0x80 <= c as int < 0x800)
    ensures (|bs| == 3) == (0x800 <= c as int < 0x10000)
    ensures !IsContinuation(bs[0])
    ensures forall i :: 1 <= i < |bs| ==> IsContinuation(bs[i])
  {
    var n := c as int;
    if n < 0x80 then [n as byte]
    else if n < 0x800 then [(0xC0 + n / 64) as byte, (0x80 + n % 64) as byte]
    else if n < 0x10000 then
      [(0xE0 + n / 4096) as byte, (0x80 + (n / 64) % 64) as byte, (0x80 + n % 64) as byte]
    else
      [(0xF0 + n / 262144) as byte, (0x80 + (n / 4096) % 64) as byte,
       (0x80 + (n / 64) % 64) as byte, (0x80 + n % 64) as byte]
  }

  /**
   * The code point UTF-8 bytes stand for: the lead byte's payload bits
   * followed by six bits from each continuation byte.
   */
  function DecodeRune(bs: seq<byte>): int
  {
    if |bs| == 1 then bs[0] as int
    else if |bs| == 2 then (bs[0] as int - 0xC0) * 64 + (bs[1] as int - 0x80)
    else if |bs| == 3 then
      ((bs[0] as int - 0xE0) * 64 + (bs[1] as int - 0x80)) * 64 + (bs[2] as int - 0x80)
    else if |bs| == 4 then
      (((bs[0] as int - 0xF0) * 64 + (bs[1] as int - 0x80)) * 64 + (bs[2] as int - 0x80)) * 64 + (bs[3] as int - 0x80)
    else -1
  }

  /** WriteRune's bytes decode back to the character written. */
  lemma DecodeEncode(c: char)
    ensures DecodeRune(EncodeRune(c)) == c as int
  {
    var n := c as int;
    if 0x800 <= n < 0x10000 {
      assert (n / 64) / 64 == n / 4096;
    } else if n >= 0x10000 {
      assert (n / 64) / 64 == n / 4096;
      assert (n / 4096) / 64 == n / 262144;
    }
  }
}
