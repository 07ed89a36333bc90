/**
 * getScreenSize's parse of the `wm size` reply ("Physical size: 1080x1920"):
 * the first match of the regular expression (\d+)x(\d+), each group read
 * with strconv.Atoi.
 */
module ScreenSize {
  import opened Wrappers
  import opened GoStrings

  /** \d in Go's regular expressions: an ASCII digit. */
  predicate IsDigit(c: char)
  {
    '0' <= c <= '9'
  }

  /** The number of digits in `s` from index `i` on, up to the first non-digit. */
  function DigitRun(s: string, i: nat): (n: nat)
    requires i <= |s|
    ensures i + n <= |s|
    ensures forall j :: i <= j < i + n ==> IsDigit(s[j])
    ensures i + n < |s| ==> !IsDigit(s[i + n])
    decreases |s| - i
  {
    if i < |s| && IsDigit(s[i]) then 1 + DigitRun(s, i + 1) else 0
  }

  /**
   * (\d+)x(\d+) matches starting at `i`. A digit run ends at the first
   * non-digit, so the first group is the whole run from `i`, and an 'x' and
   * a digit must follow it.
   */
  predicate MatchAt(s: string, i: nat)
  {
    i < |s| && IsDigit(s[i])
    && var j := i + DigitRun(s, i);
       j + 1 < |s| && s[j] == 'x' && IsDigit(s[j + 1])
  }

  /** The leftmost position at or after `i` where the pattern matches. */
  function FirstMatch(s: string, i: nat): (r: Option<nat>)
    requires i <= |s|
    ensures r.Some? ==> i <= r.value < |s| && MatchAt(s, r.value)
                        && forall j :: i <= j < r.value ==> !MatchAt(s, j)
    ensures r.None? ==> forall j :: i <= j ==> !MatchAt(s, j)
    decreases |s| - i
  {
    if i == |s| then None
    else if MatchAt(s, i) then Some(i)
    else FirstMatch(s, i + 1)
  }

  /** The two groups FindStringSubmatch returns for the leftmost match, each as long as it goes. */
  function SizeGroups(s: string): (r: Option<(string, string)>)
    ensures r.Some? <==> exists i :: MatchAt(s, i)
    ensures r.Some? ==> r.value.0 != [] && r.value.1 != []
                        && (forall k :: 0 <= k < |r.value.0| ==> IsDigit(r.value.0[k]))
                        && (forall k :: 0 <= k < |r.value.1| ==> IsDigit(r.value.1[k]))
  {
    var m := FirstMatch(s, 0);
    if m.None? then None
    else
      var i := m.value;
      var j := i + DigitRun(s, i);
      Some((s[i..j], s[j + 1..j + 1 + DigitRun(s, j + 1)]))
  }

  /** Atoi of a string of digits is never negative (an overflow clamps to the largest int). */
  lemma AtoiOfDigits(g: string)
    requires g != [] && forall k :: 0 <= k < |g| ==> IsDigit(g[k])
    ensures AtoiIgnoringError(g) >= 0
  {
    assert DigitValue(g[0]) < 10;
  }

  /** getScreenSize's parse: width and height from the first match; None when nothing matches. */
  function ParseScreenSize(output: string): (r: Option<(int, int)>)
    ensures r.Some? <==> exists i :: MatchAt(output, i)
    ensures r.Some? ==> r.value.0 >= 0 && r.value.1 >= 0
  {
    var g := SizeGroups(output);
    if g.None? then None
    else
      AtoiOfDigits(g.value.0);
      AtoiOfDigits(g.value.1);
      Some((AtoiIgnoringError(g.value.0), AtoiIgnoringError(g.value.1)))
  }

  lemma DecimalIsDigits(n: nat)
    ensures forall k :: 0 <= k < |FormatNat(n, 10)| ==> IsDigit(FormatNat(n, 10)[k])
  {
    var f := FormatNat(n, 10);
    forall k | 0 <= k < |f| ensures IsDigit(f[k]) {
      assert DigitValue(f[k]) < 10;
    }
  }

  /** Where the parts of "<prefix><ws>x<hs><suffix>" lie in the joined string. */
  lemma WrittenSizeLayout(prefix: string, ws: string, hs: string, suffix: string)
    ensures var s := prefix + ws + "x" + hs + suffix;
            var j := |prefix| + |ws|;
            |s| == j + 1 + |hs| + |suffix|
            && s[|prefix|..j] == ws && s[j] == 'x' && s[j + 1..j + 1 + |hs|] == hs
            && (forall k :: 0 <= k < |prefix| ==> s[k] == prefix[k])
            && (forall k :: 0 <= k < |ws| ==> s[|prefix| + k] == ws[k])
            && (forall k :: 0 <= k < |hs| ==> s[j + 1 + k] == hs[k])
            && (j + 1 + |hs| < |s| ==> s[j + 1 + |hs|] == suffix[0])
  {
    var s := prefix + ws + "x" + hs + suffix;
    var i := |prefix|;
    var j := i + |ws|;
    var hEnd := j + 1 + |hs|;
    assert s == prefix + ws + ("x" + hs + suffix);
    assert s[i..j] == ws by {
      forall k | i <= k < j ensures s[k] == ws[k - i] { }
    }
    assert s[j + 1..hEnd] == hs by {
      assert s == (prefix + ws + "x") + hs + suffix;
      forall k | j + 1 <= k < hEnd ensures s[k] == hs[k - j - 1] { }
    }
  }

  /**
   * Digits on [i, j), an 'x', digits on [j + 1, e), no digit at e, and no
   * match starting before i: the groups are those two runs. Text before i may
   * hold digits, as long as none of them starts a match.
   */
  lemma GroupsAt(s: string, i: nat, j: nat, e: nat, ws: string, hs: string)
    requires i < j && j + 1 < e <= |s|
    requires s[i..j] == ws && s[j + 1..e] == hs
    requires forall k :: 0 <= k < i ==> !MatchAt(s, k)
    requires forall k :: i <= k < j ==> IsDigit(s[k])
    requires s[j] == 'x'
    requires forall k :: j + 1 <= k < e ==> IsDigit(s[k])
    requires e == |s| || !IsDigit(s[e])
    ensures SizeGroups(s) == Some((ws, hs))
  {
    LeftmostAt(s, i, j, e);
  }

  /** Under the same layout, the leftmost match is at i, and the two digit runs end at j and e. */
  lemma LeftmostAt(s: string, i: nat, j: nat, e: nat)
    requires i < j && j + 1 < e <= |s|
    requires forall k :: 0 <= k < i ==> !MatchAt(s, k)
    requires forall k :: i <= k < j ==> IsDigit(s[k])
    requires s[j] == 'x'
    requires forall k :: j + 1 <= k < e ==> IsDigit(s[k])
    requires e == |s| || !IsDigit(s[e])
    ensures FirstMatch(s, 0) == Some(i)
    ensures DigitRun(s, i) == j - i && DigitRun(s, j + 1) == e - j - 1
  {
    DigitRunCovers(s, i, j - i);
    DigitRunCovers(s, j + 1, e - j - 1);
    assert MatchAt(s, i);
    FirstMatchFrom(s, 0, i);
  }

  /**
   * Wherever the leftmost match lies, the size read is its two digit runs,
   * each read with Atoi: the run from i up to the 'x' at j, and the run from
   * j + 1 up to e.
   */
  lemma ParseSizeAt(s: string, i: nat, j: nat, e: nat)
    requires i < j && j + 1 < e <= |s|
    requires forall k :: 0 <= k < i ==> !MatchAt(s, k)
    requires forall k :: i <= k < j ==> IsDigit(s[k])
    requires s[j] == 'x'
    requires forall k :: j + 1 <= k < e ==> IsDigit(s[k])
    requires e == |s| || !IsDigit(s[e])
    ensures ParseScreenSize(s) == Some((AtoiIgnoringError(s[i..j]), AtoiIgnoringError(s[j + 1..e])))
  {
    GroupsAt(s, i, j, e, s[i..j], s[j + 1..e]);
  }

  /** Two digit groups joined by 'x', after text where no match starts and before a non-digit, are the groups found. */
  lemma GroupsOfWrittenSize(prefix: string, ws: string, hs: string, suffix: string)
    requires forall k :: 0 <= k < |prefix| ==> !MatchAt(prefix + ws + "x" + hs + suffix, k)
    requires ws != [] && forall k :: 0 <= k < |ws| ==> IsDigit(ws[k])
    requires hs != [] && forall k :: 0 <= k < |hs| ==> IsDigit(hs[k])
    requires suffix == [] || !IsDigit(suffix[0])
    ensures SizeGroups(prefix + ws + "x" + hs + suffix) == Some((ws, hs))
  {
    var s := prefix + ws + "x" + hs + suffix;
    var i := |prefix|;
    var j := i + |ws|;
    var e := j + 1 + |hs|;
    WrittenSizeLayout(prefix, ws, hs, suffix);
    forall k | i <= k < j ensures IsDigit(s[k]) {
      assert s[i + (k - i)] == ws[k - i];
    }
    forall k | j + 1 <= k < e ensures IsDigit(s[k]) {
      assert s[j + 1 + (k - j - 1)] == hs[k - j - 1];
    }
    GroupsAt(s, i, j, e, ws, hs);
  }

  /**
   * The reply `wm size` prints is read back exactly: after text where no
   * match starts, "<w>x<h>" gives (w, h), whatever follows that is not a digit.
   */
  lemma ParseWrittenSize(prefix: string, w: nat, h: nat, suffix: string)
    requires forall k :: 0 <= k < |prefix| ==> !MatchAt(prefix + FormatInt(w, 10) + "x" + FormatInt(h, 10) + suffix, k)
    requires suffix == [] || !IsDigit(suffix[0])
    requires w < Pow2(63) && h < Pow2(63)
    ensures ParseScreenSize(prefix + FormatInt(w, 10) + "x" + FormatInt(h, 10) + suffix) == Some((w, h))
  {
    DecimalIsDigits(w);
    DecimalIsDigits(h);
    GroupsOfWrittenSize(prefix, FormatInt(w, 10), FormatInt(h, 10), suffix);
    FormatParseRoundTrip(w, 10, 64);
    FormatParseRoundTrip(h, 10, 64);
  }

  /** A run of exactly `n` digits from `i`, followed by a non-digit or the end, has DigitRun n. */
  lemma {:induction false} DigitRunCovers(s: string, i: nat, n: nat)
    requires i + n <= |s|
    requires forall k :: i <= k < i + n ==> IsDigit(s[k])
    requires i + n == |s| || !IsDigit(s[i + n])
    ensures DigitRun(s, i) == n
    decreases n
  {
    if n > 0 {
      DigitRunCovers(s, i + 1, n - 1);
    }
  }

  lemma {:induction false} FirstMatchFrom(s: string, from: nat, i: nat)
    requires from <= i < |s| && MatchAt(s, i)
    requires forall k :: from <= k < i ==> !MatchAt(s, k)
    ensures FirstMatch(s, from) == Some(i)
    decreases i - from
  {
    if from < i {
      FirstMatchFrom(s, from + 1, i);
    }
  }

  /** A size reply ending in `text`, after a prefix where no match starts, is read as (w, h). */
  lemma ParseSizeText(prefix: string, w: nat, h: nat, text: string)
    requires forall k :: 0 <= k < |prefix| ==> !MatchAt(prefix + text, k)
    requires w < Pow2(63) && h < Pow2(63)
    requires FormatInt(w, 10) + "x" + FormatInt(h, 10) == text
    ensures ParseScreenSize(prefix + text) == Some((w, h))
  {
    var ws, hs := FormatInt(w, 10), FormatInt(h, 10);
    Regroup(prefix, ws, "x", hs);
    ParseWrittenSize(prefix, w, h, "");
  }

  lemma Regroup(a: string, b: string, c: string, d: string)
    ensures a + b + c + d + "" == a + (b + c + d)
  {
  }

  /** A reply of "0x0" is accepted as a screen size, so a zero dimension can be stored. */
  lemma ZeroSizeIsRead(prefix: string)
    requires forall k :: 0 <= k < |prefix| ==> !MatchAt(prefix + "0x0", k)
    ensures ParseScreenSize(prefix + "0x0") == Some((0, 0))
  {
    var z := FormatInt(0, 10);
    assert z == "0";
    assert z + "x" + z == "0x0";
    ParseSizeText(prefix, 0, 0, "0x0");
  }
}
