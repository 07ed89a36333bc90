/**
 * The screen preview: how large the box drawn for the phone is, which cell
 * of it the pointer falls in, and the frame of text lines that draws it.
 */
module Geometry {
  import opened Device

  // ---------------------------------------------------------------------
  // calculateBoxSize
  // ---------------------------------------------------------------------

  /** The room along one axis: the scaled terminal extent less 4 cells of border, raised to 8 when smaller. */
  function Room(scaled: int): (m: int)
    ensures m >= 8 && m >= scaled - 4
    ensures m == 8 || m == scaled - 4
  {
    var m := scaled - 4;
    if m < 8 then 8 else m
  }

  /**
   * calculateBoxSize. `scaledW` and `scaledH` are the terminal size after the
   * scale factor; `heightFor(w)` is the truncated height that keeps the
   * device's aspect ratio at width `w` once the character aspect ratio is
   * applied, and `widthFor(h)` the truncated width for height `h` (both are
   * floating-point products in the program).
   */
  function BoxSize(scaledW: int, scaledH: int, heightFor: int -> int, widthFor: int -> int): (box: (int, int))
    ensures var mw, mh := Room(scaledW), Room(scaledH);
            box.0 <= mw && box.1 <= mh
            && (box.0 == mw || box.1 == mh)
            && (heightFor(mw) <= mh ==> box == (mw, heightFor(mw)))
            && (heightFor(mw) > mh && widthFor(mh) <= mw ==> box == (widthFor(mh), mh))
            && (heightFor(mw) > mh && widthFor(mh) > mw ==> box == (mw, mh))
  {
    var maxWidth, maxHeight := Room(scaledW), Room(scaledH);
    var calcHeight := heightFor(maxWidth);
    if calcHeight <= maxHeight then (maxWidth, calcHeight)
    else
      var calcWidth := widthFor(maxHeight);
      if calcWidth > maxWidth then (maxWidth, maxHeight) else (calcWidth, maxHeight)
  }

  /** The aspect-preserving candidates are not raised to 8: a wide device can get a box fewer than 8 rows high. */
  lemma BoxMayBeLowerThanEight()
    ensures BoxSize(64, 19, _ => 3, _ => 200) == (60, 3)
  {
  }

  /**
   * A 1080x1920 phone on an 80x24 terminal with the default scale 0.8 and
   * character ratio 0.5: the scaled terminal is 64x19, the room 60x15; the
   * width-first height (53) overflows, the height-first width is 16.
   */
  lemma BoxForDefaultTerminal(heightFor: int -> int, widthFor: int -> int)
    requires heightFor(60) == 53 && widthFor(15) == 16
    ensures BoxSize(64, 19, heightFor, widthFor) == (16, 15)
  {
  }

  // ---------------------------------------------------------------------
  // The pointer's cell
  // ---------------------------------------------------------------------

  function Abs(a: int): nat
  {
    if a < 0 then -a else a
  }

  /** Go's integer division, which truncates toward zero. */
  function Quot(a: int, b: int): (q: int)
    requires b != 0
    ensures a >= 0 && b > 0 ==> q == a / b
  {
    if (a < 0) == (b < 0) then Abs(a) / Abs(b) else -(Abs(a) / Abs(b))
  }

  /** Go's division rounds toward zero, so negating the dividend negates the quotient. */
  lemma QuotOdd(a: int, b: int)
    requires b != 0
    ensures Quot(-a, b) == -Quot(a, b)
  {
    assert Abs(-a) == Abs(a);
    if a == 0 {
      assert Quot(a, b) == 0 == Quot(-a, b);
    } else if (a < 0) == (b < 0) {
      assert Quot(-a, b) == -(Abs(a) / Abs(b));
    } else {
      assert Quot(-a, b) == Abs(a) / Abs(b);
    }
  }

  /** The column (or row) of a box `cells` wide that device coordinate `x` of an `extent`-pixel screen falls in. */
  function Cell(x: int, cells: int, extent: int): int
    requires extent != 0
  {
    Quot(x * cells, extent)
  }

  lemma MulMonotone(a: int, b: int, c: int)
    requires a <= b && c >= 0
    ensures a * c <= b * c
  {
    assert b * c - a * c == (b - a) * c;
  }

  lemma DivMonotone(a: int, b: int, d: int)
    requires 0 <= a <= b && d > 0
    ensures a / d <= b / d
  {
    if a / d > b / d {
      assert (b / d + 1) * d <= (a / d) * d by {
        MulMonotone(b / d + 1, a / d, d);
      }
      assert false;
    }
  }

  /** A pointer on the screen maps into the box, its far edge included. */
  lemma CellInBox(x: int, cells: int, extent: int)
    requires 0 <= x <= extent && 0 <= cells && extent > 0
    ensures 0 <= Cell(x, cells, extent) <= cells
  {
    var p := x * cells;
    MulMonotone(x, extent, cells);
    MulMonotone(0, x, cells);
    assert 0 <= p <= cells * extent;
    DivMonotone(0, p, extent);
    DivMonotone(p, cells * extent, extent);
    MulDivCancel(cells, extent);
    assert Cell(x, cells, extent) == p / extent;
  }

  /** Moving the pointer right (or down) never moves its cell left (or up). */
  lemma CellMonotone(x1: int, x2: int, cells: int, extent: int)
    requires 0 <= x1 <= x2 && 0 <= cells && extent > 0
    ensures Cell(x1, cells, extent) <= Cell(x2, cells, extent)
  {
    MulMonotone(x1, x2, cells);
    MulMonotone(0, x1, cells);
    DivMonotone(x1 * cells, x2 * cells, extent);
  }

  lemma MulDivCancel(c: int, d: int)
    requires d > 0
    ensures (c * d) / d == c
  {
    var q, r := (c * d) / d, (c * d) % d;
    assert q * d + r == c * d;
    assert (c - q) * d == r;
    if c - q > 0 {
      MulMonotone(1, c - q, d);
    } else if c - q < 0 {
      MulMonotone(c - q, -1, d);
    }
  }

  lemma DivBelow(p: int, c: int, d: int)
    requires 0 <= p < c * d && d > 0
    ensures p / d < c
  {
    if p / d >= c {
      MulMonotone(c, p / d, d);
      assert false;
    }
  }

  /** Only the far edge of the screen maps to the cell just outside the box. */
  lemma CellInsideIff(x: int, cells: int, extent: int)
    requires 0 <= x <= extent && 0 < cells && extent > 0
    ensures Cell(x, cells, extent) < cells <==> x < extent
  {
    MulMonotone(0, x, cells);
    if x < extent {
      MulMonotone(x, extent - 1, cells);
      assert (extent - 1) * cells == cells * extent - cells;
      DivBelow(x * cells, cells, extent);
    } else {
      assert x * cells == cells * extent;
      MulDivCancel(cells, extent);
    }
  }

  // ---------------------------------------------------------------------
  // The frame
  // ---------------------------------------------------------------------

  /** A top or bottom border: a '+', `w` dashes, a '+'. */
  function Border(w: nat): string
  {
    "+" + seq(w, _ => '-') + "+"
  }

  /** The `w` cells of row `y`: the glyph where the pointer's cell is, the fill character elsewhere. */
  function Cells(w: nat, y: int, gx: int, gy: int, glyph: char, fill: char): string
  {
    seq(w, x => if x == gx && y == gy then glyph else fill)
  }

  function Row(w: nat, y: int, gx: int, gy: int, glyph: char, fill: char): string
  {
    "|" + Cells(w, y, gx, gy, glyph, fill) + "|"
  }

  /** The rows of a box `h` high (none when `h` is not positive). */
  function Rows(w: nat, h: int, gx: int, gy: int, glyph: char, fill: char): seq<string>
  {
    seq(Max(h, 0), y => Row(w, y, gx, gy, glyph, fill))
  }

  /** The frame displayPointerArea prints, one string per line. */
  function Frame(w: nat, h: int, gx: int, gy: int, glyph: char, fill: char): seq<string>
  {
    [Border(w)] + Rows(w, h, gx, gy, glyph, fill) + [Border(w)]
  }

  /** The frame has a border line above and below `h` rows, and every line is `w` + 2 characters wide. */
  lemma FrameShape(w: nat, h: int, gx: int, gy: int, glyph: char, fill: char)
    ensures var f := Frame(w, h, gx, gy, glyph, fill);
            |f| == Max(h, 0) + 2 && f[0] == f[|f| - 1] == Border(w)
            && forall i :: 0 <= i < |f| ==> |f[i]| == w + 2
  {
  }

  /** displayPointerArea's drawing loops: a border, one row per box line built cell by cell, a border. */
  method RenderFrame(w: nat, h: int, gx: int, gy: int, glyph: char, fill: char) returns (lines: seq<string>)
    ensures lines == Frame(w, h, gx, gy, glyph, fill)
  {
    var border := "+" + seq(w, _ => '-') + "+";
    lines := [border];
    var y := 0;
    while y < h
      invariant 0 <= y <= Max(h, 0)
      invariant lines == [Border(w)] + Rows(w, y, gx, gy, glyph, fill)
    {
      var row := "|";
      var x := 0;
      while x < w
        invariant 0 <= x <= w
        invariant row == "|" + Cells(x, y, gx, gy, glyph, fill)
      {
        if x == gx && y == gy {
          row := row + [glyph];
        } else {
          row := row + [fill];
        }
        assert Cells(x + 1, y, gx, gy, glyph, fill) == Cells(x, y, gx, gy, glyph, fill) + [row[|row| - 1]];
        x := x + 1;
      }
      row := row + "|";
      assert Rows(w, y + 1, gx, gy, glyph, fill) == Rows(w, y, gx, gy, glyph, fill) + [row];
      lines := lines + [row];
      y := y + 1;
    }
    lines := lines + [border];
  }

  /** How many times `c` is printed across `lines`. */
  function CountIn(lines: seq<string>, c: char): nat
  {
    if lines == [] then 0 else CountIn(lines[..|lines| - 1], c) + multiset(lines[|lines| - 1])[c]
  }

  lemma {:induction false} CountInAppend(a: seq<string>, b: seq<string>, c: char)
    ensures CountIn(a + b, c) == CountIn(a, c) + CountIn(b, c)
    decreases |b|
  {
    if b != [] {
      assert (a + b)[..|a + b| - 1] == a + b[..|b| - 1];
      assert (a + b)[|a + b| - 1] == b[|b| - 1];
      CountInAppend(a, b[..|b| - 1], c);
      assert CountIn(a + b, c) == CountIn(a + b[..|b| - 1], c) + multiset(b[|b| - 1])[c];
      assert CountIn(b, c) == CountIn(b[..|b| - 1], c) + multiset(b[|b| - 1])[c];
    } else {
      assert a + b == a;
    }
  }

  lemma {:induction false} CellsGlyphCount(w: nat, y: int, gx: int, gy: int, glyph: char, fill: char)
    requires glyph != fill
    ensures multiset(Cells(w, y, gx, gy, glyph, fill))[glyph] == if y == gy && 0 <= gx < w then 1 else 0
    decreases w
  {
    if w > 0 {
      CellsGlyphCount(w - 1, y, gx, gy, glyph, fill);
      assert Cells(w, y, gx, gy, glyph, fill)
          == Cells(w - 1, y, gx, gy, glyph, fill) + [if w - 1 == gx && y == gy then glyph else fill];
    }
  }

  lemma {:induction false} RowsGlyphCount(w: nat, h: int, gx: int, gy: int, glyph: char, fill: char)
    requires glyph != fill && glyph != '|'
    ensures CountIn(Rows(w, h, gx, gy, glyph, fill), glyph) == if 0 <= gx < w && 0 <= gy < h then 1 else 0
    decreases Max(h, 0)
  {
    if h > 0 {
      var rows := Rows(w, h, gx, gy, glyph, fill);
      RowsGlyphCount(w, h - 1, gx, gy, glyph, fill);
      assert rows[..|rows| - 1] == Rows(w, h - 1, gx, gy, glyph, fill);
      CellsGlyphCount(w, h - 1, gx, gy, glyph, fill);
      assert rows[|rows| - 1] == "|" + Cells(w, h - 1, gx, gy, glyph, fill) + "|";
    }
  }

  /**
   * The pointer glyph is drawn at most once, and exactly once when its cell
   * lies inside the box; it is then on line gy+1 at column gx+1.
   */
  lemma FrameGlyphCount(w: nat, h: int, gx: int, gy: int, glyph: char, fill: char)
    requires glyph != fill && glyph != '|' && glyph != '+' && glyph != '-'
    ensures var f := Frame(w, h, gx, gy, glyph, fill);
            CountIn(f, glyph) == (if 0 <= gx < w && 0 <= gy < h then 1 else 0)
            && (0 <= gx < w && 0 <= gy < h ==> f[gy + 1][gx + 1] == glyph)
  {
    var b := Border(w);
    var rows := Rows(w, h, gx, gy, glyph, fill);
    assert multiset(b)[glyph] == 0 by {
      assert glyph !in b;
    }
    assert CountIn([b], glyph) == 0 by {
      assert [b][..0] == [];
    }
    CountInAppend([b], rows, glyph);
    CountInAppend([b] + rows, [b], glyph);
    RowsGlyphCount(w, h, gx, gy, glyph, fill);
    if 0 <= gx < w && 0 <= gy < h {
      FrameGlyphAt(w, h, gx, gy, glyph, fill);
    }
  }

  lemma FrameGlyphAt(w: nat, h: int, gx: int, gy: int, glyph: char, fill: char)
    requires 0 <= gx < w && 0 <= gy < h
    ensures Frame(w, h, gx, gy, glyph, fill)[gy + 1][gx + 1] == glyph
  {
    var f := Frame(w, h, gx, gy, glyph, fill);
    assert f[gy + 1] == Row(w, gy, gx, gy, glyph, fill);
    assert Cells(w, gy, gx, gy, glyph, fill)[gx] == glyph;
  }
}
