/**
 * Text measurement and layout of PrimitiveRenderer2D.Text.cs. A font is its line height and an
 * abstract glyph lookup; a text is cut into lines at '\n', each line is as wide as the sum of the
 * integer advances of its glyphs, and glyphs are emitted as textured rectangles along a pen.
 */
module TextLayout {
  import opened Geometry
  import opened Wrappers
  import opened Emission

  datatype Alignment = Left | Center

  datatype VerticalAlignment = Top | Middle

  datatype Overflow = Nothing | Shrink

  datatype FontStyle = Normal | Bold | Italic | BoldAndItalic

  datatype TextFormat = TextFormat(alignment: Alignment, verticalAlignment: VerticalAlignment, overflow: Overflow,
                                   fontStyle: FontStyle, fontSize: real, lineHeight: real)

  /** The format used when a caller passes none. */
  const DefaultTextFormat := TextFormat(Left, Top, Nothing, Normal, 20.0, 30.0)

  function FormatOrDefault(format: Option<TextFormat>): (r: TextFormat)
    ensures format.None? ==>
      (r.alignment == Left && r.verticalAlignment == Top && r.overflow == Nothing &&
       r.fontStyle == Normal && r.fontSize == 20.0 && r.lineHeight == 30.0)
    ensures format.Some? ==> r == format.value
  {
    if format.Some? then format.value else DefaultTextFormat
  }

  /** Glyph metrics in font units and the four texture corners of the glyph in the font atlas. */
  datatype GlyphInfo = GlyphInfo(advance: int, minX: int, maxX: int, minY: int, maxY: int,
                                 uvTopLeft: Vec2, uvTopRight: Vec2, uvBottomRight: Vec2, uvBottomLeft: Vec2)

  /** A font: its line height in font units and which characters it has glyphs for, per style. */
  datatype Font = Font(lineHeight: int, glyph: (char, FontStyle) -> Option<GlyphInfo>)

  /** `char.IsControl`: the C0 controls, DEL and the C1 controls. */
  predicate IsControl(c: char)
    ensures c == '\n' ==> IsControl(c)
    ensures ' ' <= c <= '~' ==> !IsControl(c)
  {
    c as int <= 0x1F || 0x7F <= c as int <= 0x9F
  }

  // ---------------------------------------------------------------------------------------------
  // Lines
  // ---------------------------------------------------------------------------------------------

  /** The text cut at every '\n' (an empty text is one empty line). */
  function Split(s: seq<char>): (r: seq<seq<char>>)
    ensures |r| >= 1
  {
    if |s| == 0 then [[]]
    else
      var p := Split(s[..|s| - 1]);
      if s[|s| - 1] == '\n' then p + [[]] else p[..|p| - 1] + [p[|p| - 1] + [s[|s| - 1]]]
  }

  /** The lines joined back with '\n' between them. */
  function Join(lines: seq<seq<char>>): seq<char>
    requires |lines| >= 1
  {
    if |lines| == 1 then lines[0] else Join(lines[..|lines| - 1]) + ['\n'] + lines[|lines| - 1]
  }

  /** Cutting at '\n' loses nothing: the lines hold no '\n' and joining them gives the text back. */
  lemma {:induction false} SplitJoin(s: seq<char>)
    ensures Join(Split(s)) == s
    ensures forall i :: 0 <= i < |Split(s)| ==> '\n' !in Split(s)[i]
  {
    if |s| > 0 {
      var s' := s[..|s| - 1];
      SplitJoin(s');
      var p := Split(s');
      assert s == s' + [s[|s| - 1]];
      if s[|s| - 1] != '\n' {
        var r := Split(s);
        if |p| == 1 {
          assert Join(r) == r[0];
        } else {
          assert r[..|r| - 1] == p[..|p| - 1];
          assert Join(p) == Join(p[..|p| - 1]) + ['\n'] + p[|p| - 1];
        }
      } else {
        assert Split(s)[..|p|] == p;
      }
    }
  }

  /** There is one line more than there are '\n' characters. */
  lemma {:induction false} SplitCount(s: seq<char>)
    ensures |Split(s)| == 1 + multiset(s)['\n']
  {
    if |s| > 0 {
      SplitCount(s[..|s| - 1]);
      assert s == s[..|s| - 1] + [s[|s| - 1]];
    }
  }

  /** What one character adds to the width of its line, in font units. */
  function GlyphAdvance(c: char, style: FontStyle, font: Font): (a: int)
    ensures IsControl(c) || font.glyph(c, style).None? ==> a == 0
    ensures !IsControl(c) && font.glyph(c, style).Some? ==> a == font.glyph(c, style).value.advance
  {
    if IsControl(c) then 0
    else match font.glyph(c, style)
      case None => 0
      case Some(g) => g.advance
  }

  /** The summed advance of a line. */
  function Advance(line: seq<char>, style: FontStyle, font: Font): int
  {
    if |line| == 0 then 0 else Advance(line[..|line| - 1], style, font) + GlyphAdvance(line[|line| - 1], style, font)
  }

  /** The widest of the lines in font units, and never below zero. */
  function MaxAdvance(lines: seq<seq<char>>, style: FontStyle, font: Font): (r: int)
    ensures r >= 0
  {
    if |lines| == 0 then 0
    else
      var m := MaxAdvance(lines[..|lines| - 1], style, font);
      var a := Advance(lines[|lines| - 1], style, font);
      if a > m then a else m
  }

  /** The widest advance bounds every line and is zero or the advance of one of them. */
  lemma {:induction false} MaxAdvanceIsMax(lines: seq<seq<char>>, style: FontStyle, font: Font)
    ensures forall i :: 0 <= i < |lines| ==> Advance(lines[i], style, font) <= MaxAdvance(lines, style, font)
    ensures MaxAdvance(lines, style, font) == 0 ||
      exists i :: 0 <= i < |lines| && Advance(lines[i], style, font) == MaxAdvance(lines, style, font)
  {
    if |lines| > 0 {
      var init := lines[..|lines| - 1];
      MaxAdvanceIsMax(init, style, font);
      assert forall i :: 0 <= i < |lines| - 1 ==> init[i] == lines[i];
      var m := MaxAdvance(init, style, font);
      if m != 0 && m >= Advance(lines[|lines| - 1], style, font) {
        var i :| 0 <= i < |init| && Advance(init[i], style, font) == m;
        assert lines[i] == init[i];
      }
    }
  }

  // ---------------------------------------------------------------------------------------------
  // Measurement
  // ---------------------------------------------------------------------------------------------

  /** The ratio from font units to virtual-screen units for a format. */
  function FontScale(format: TextFormat, font: Font): real
    requires font.lineHeight > 0
  {
    format.fontSize / (font.lineHeight as real)
  }

  /**
   * `MeasureText(text, start, end, format, ...)`: zero for an empty text; otherwise the widest line
   * of text[start..end] scaled to the format's font size, and one line height per line.
   */
  function Measure(text: seq<char>, start: nat, end: nat, format: TextFormat, font: Font): (m: Vec2)
    requires start <= end <= |text| && font.lineHeight > 0
    ensures |text| == 0 ==> m == Vec2(0.0, 0.0)
    ensures format.fontSize >= 0.0 ==> m.x >= 0.0
  {
    if |text| == 0 then Vec2(0.0, 0.0) else MeasureLines(Split(text[start..end]), format, font)
  }

  /** The size of some lines: the widest scaled to the font size, and one line height each. */
  function MeasureLines(lines: seq<seq<char>>, format: TextFormat, font: Font): (m: Vec2)
    requires font.lineHeight > 0
    ensures m.y == Stacked(format.lineHeight, |lines|)
    ensures format.fontSize >= 0.0 ==> m.x >= 0.0
  {
    Vec2(Scaled(MaxAdvance(lines, format.fontStyle, font), FontScale(format, font)), Stacked(format.lineHeight, |lines|))
  }

  /** A length in font units converted to virtual-screen units. */
  function Scaled(units: int, scale: real): real
  {
    (units as real) * scale
  }

  /** n line heights stacked: the sum the measuring loop builds, one line height per line. */
  function Stacked(lineHeight: real, n: nat): real
  {
    if n == 0 then 0.0 else Stacked(lineHeight, n - 1) + lineHeight
  }

  /** Stacking n line heights is multiplying the line height by n. */
  lemma {:induction false} StackedIsProduct(lineHeight: real, n: nat)
    ensures Stacked(lineHeight, n) == lineHeight * (n as real)
  {
    if n > 0 {
      StackedIsProduct(lineHeight, n - 1);
      assert lineHeight * (n as real) == lineHeight * ((n - 1) as real) + lineHeight;
    }
  }

  /** `MeasureText(text, format, ...)`: the whole text. */
  function MeasureWhole(text: seq<char>, format: Option<TextFormat>, font: Font): (r: Vec2)
    requires font.lineHeight > 0
    ensures |text| == 0 ==> r == Vec2(0.0, 0.0)
  {
    if |text| == 0 then Vec2(0.0, 0.0) else Measure(text, 0, |text|, FormatOrDefault(format), font)
  }

  /** The measured height is one line height per '\n' plus one. */
  lemma {:induction false} MeasureHeight(text: seq<char>, start: nat, end: nat, format: TextFormat, font: Font)
    requires start <= end <= |text| && font.lineHeight > 0 && |text| > 0
    ensures Measure(text, start, end, format, font).y == Stacked(format.lineHeight, 1 + multiset(text[start..end])['\n'])
  {
    SplitCount(text[start..end]);
  }

  /**
   * For a non-negative font size, the measured width is at least zero and at least the scaled
   * advance of every line.
   */
  lemma {:induction false} MeasureWidth(text: seq<char>, start: nat, end: nat, format: TextFormat, font: Font)
    requires start <= end <= |text| && font.lineHeight > 0 && |text| > 0
    requires format.fontSize >= 0.0
    ensures Measure(text, start, end, format, font).x >= 0.0
    ensures forall i :: 0 <= i < |Split(text[start..end])| ==>
      Measure(text, start, end, format, font).x >= Scaled(Advance(Split(text[start..end])[i], format.fontStyle, font), FontScale(format, font))
  {
    Fraction0(format.fontSize, font.lineHeight as real);
    ScaledMaxBounds(Split(text[start..end]), format.fontStyle, font, FontScale(format, font));
  }

  /** Scaled by a non-negative factor, the widest advance still bounds every line and zero. */
  lemma ScaledMaxBounds(lines: seq<seq<char>>, style: FontStyle, font: Font, sc: real)
    requires sc >= 0.0
    ensures Scaled(MaxAdvance(lines, style, font), sc) >= 0.0
    ensures forall i :: 0 <= i < |lines| ==>
      Scaled(MaxAdvance(lines, style, font), sc) >= Scaled(Advance(lines[i], style, font), sc)
  {
    var m := MaxAdvance(lines, style, font);
    MaxAdvanceIsMax(lines, style, font);
    ScaledMonotone(0, m, sc);
    forall i | 0 <= i < |lines|
      ensures Scaled(m, sc) >= Scaled(Advance(lines[i], style, font), sc)
    {
      ScaledMonotone(Advance(lines[i], style, font), m, sc);
    }
  }

  /** Scaling by a non-negative factor keeps the order of lengths. */
  lemma ScaledMonotone(a: int, b: int, sc: real)
    requires a <= b && sc >= 0.0
    ensures Scaled(a, sc) <= Scaled(b, sc)
  {
    MulLe(a as real, b as real, sc);
  }

  lemma Fraction0(n: real, d: real)
    requires n >= 0.0 && d > 0.0
    ensures n / d >= 0.0
  {
  }

  // ---------------------------------------------------------------------------------------------
  // Shrink and vertical placement
  // ---------------------------------------------------------------------------------------------

  /**
   * The shrink factor: per axis the area over the measured size where the text overflows, else one;
   * the larger of the two is applied.
   */
  function ShrinkScale(size: Vec2, area: Rect): (s: real)
    requires size.x > area.z - area.x ==> size.x != 0.0
    requires size.y > area.w - area.y ==> size.y != 0.0
    ensures size.x >= 0.0 && size.y >= 0.0 ==> s <= 1.0 && (s == 1.0 <==> size.x <= area.z - area.x || size.y <= area.w - area.y)
  {
    var scaleX := if size.x > area.z - area.x then (area.z - area.x) / size.x else 1.0;
    var scaleY := if size.y > area.w - area.y then (area.w - area.y) / size.y else 1.0;
    if scaleX >= scaleY then scaleX else scaleY
  }

  /**
   * In an area of non-negative size the factor lies in [0, 1], it is one exactly when the text fits
   * along at least one axis, and it never shrinks the text below the larger of the two fits.
   */
  lemma ShrinkScaleBounds(size: Vec2, area: Rect)
    requires area.z - area.x >= 0.0 && area.w - area.y >= 0.0
    ensures 0.0 <= ShrinkScale(size, area) <= 1.0
    ensures ShrinkScale(size, area) == 1.0 <==> size.x <= area.z - area.x || size.y <= area.w - area.y
    ensures size.x > area.z - area.x && size.y > area.w - area.y ==>
      ShrinkScale(size, area) * size.x >= area.z - area.x && ShrinkScale(size, area) * size.y >= area.w - area.y
  {
    var aw, ah := area.z - area.x, area.w - area.y;
    if size.x > aw {
      FractionBelowOne(aw, size.x);
    }
    if size.y > ah {
      FractionBelowOne(ah, size.y);
    }
    if size.x > aw && size.y > ah {
      var sx, sy := aw / size.x, ah / size.y;
      if sx >= sy {
        MulLe(sy, sx, size.y);
      } else {
        MulLe(sx, sy, size.x);
      }
    }
  }

  /** A part strictly smaller than a positive whole is a fraction in [0, 1). */
  lemma FractionBelowOne(n: real, w: real)
    requires 0.0 <= n < w
    ensures 0.0 <= n / w < 1.0 && (n / w) * w == n
  {
    Fraction(n, w);
  }

  lemma MulLe(a: real, b: real, c: real)
    requires a <= b && c >= 0.0
    ensures a * c <= b * c
  {
    MulNonNegative(b - a, c);
  }

  /** Text measured larger than a 100 x 100 area in one direction only is not shrunk at all. */
  lemma ShrinkKeepsOverflow()
    ensures ShrinkScale(Vec2(200.0, 30.0), Rect(0.0, 0.0, 100.0, 100.0)) == 1.0
  {
  }

  /** Text measured 200 x 200 in a 100 x 50 area is shrunk by one half, and is then still twice too tall. */
  lemma ShrinkStillOverflows()
    ensures ShrinkScale(Vec2(200.0, 200.0), Rect(0.0, 0.0, 100.0, 50.0)) == 0.5
    ensures ShrinkScale(Vec2(200.0, 200.0), Rect(0.0, 0.0, 100.0, 50.0)) * 200.0 > 50.0
  {
  }

  /** The shrink factor with the smaller of the two per-axis fits: enough for the more constrained axis. */
  function ShrinkScaleFitting(size: Vec2, area: Rect): (s: real)
    requires size.x > area.z - area.x ==> size.x != 0.0
    requires size.y > area.w - area.y ==> size.y != 0.0
    ensures size.x >= 0.0 && size.y >= 0.0 ==> s <= 1.0 && (s == 1.0 <==> size.x <= area.z - area.x && size.y <= area.w - area.y)
  {
    var scaleX := if size.x > area.z - area.x then (area.z - area.x) / size.x else 1.0;
    var scaleY := if size.y > area.w - area.y then (area.w - area.y) / size.y else 1.0;
    if scaleX <= scaleY then scaleX else scaleY
  }

  /**
   * In an area of non-negative size, the smaller factor lies in [0, 1], is one exactly when the
   * text fits along both axes, and makes the scaled text fit along both.
   */
  lemma ShrinkScaleFittingFits(size: Vec2, area: Rect)
    requires area.z - area.x >= 0.0 && area.w - area.y >= 0.0 && size.x >= 0.0 && size.y >= 0.0
    ensures 0.0 <= ShrinkScaleFitting(size, area) <= 1.0
    ensures ShrinkScaleFitting(size, area) == 1.0 <==> size.x <= area.z - area.x && size.y <= area.w - area.y
    ensures ShrinkScaleFitting(size, area) * size.x <= area.z - area.x
    ensures ShrinkScaleFitting(size, area) * size.y <= area.w - area.y
  {
    var aw, ah := area.z - area.x, area.w - area.y;
    var sx := if size.x > aw then aw / size.x else 1.0;
    var sy := if size.y > ah then ah / size.y else 1.0;
    if size.x > aw {
      FractionBelowOne(aw, size.x);
    }
    if size.y > ah {
      FractionBelowOne(ah, size.y);
    }
    var sc := ShrinkScaleFitting(size, area);
    assert sc <= sx && sc <= sy;
    MulLe(sc, sx, size.x);
    MulLe(sc, sy, size.y);
  }

  /** The format after the shrink step: both sizes scaled when the factor is not one. */
  function Shrunk(format: TextFormat, size: Vec2, area: Rect): (r: TextFormat)
    requires size.x > area.z - area.x ==> size.x != 0.0
    requires size.y > area.w - area.y ==> size.y != 0.0
    ensures format.overflow != Shrink || ShrinkScale(size, area) == 1.0 ==> r == format
    ensures r == format.(fontSize := r.fontSize, lineHeight := r.lineHeight)
  {
    var scale := ShrinkScale(size, area);
    if format.overflow != Shrink || scale == 1.0 then format
    else format.(fontSize := format.fontSize * scale, lineHeight := format.lineHeight * scale)
  }

  /** Shrinking keeps the ratio of font size to line height. */
  lemma ShrunkKeepsRatio(format: TextFormat, size: Vec2, area: Rect)
    requires size.x > area.z - area.x ==> size.x != 0.0
    requires size.y > area.w - area.y ==> size.y != 0.0
    ensures var r := Shrunk(format, size, area);
      r.fontSize * format.lineHeight == r.lineHeight * format.fontSize
  {
    var scale := ShrinkScale(size, area);
    assert (format.fontSize * scale) * format.lineHeight == (format.lineHeight * scale) * format.fontSize;
  }

  /** Middle alignment moves the top down by half the spare height of the (unshrunk) measurement. */
  function MiddleTop(area: Rect, size: Vec2): (y: real)
    ensures (y - area.y) + size.y + (y - area.y) == area.w - area.y
  {
    area.y + ((area.w - area.y) - size.y) / 2.0
  }

  // ---------------------------------------------------------------------------------------------
  // Typesetting
  // ---------------------------------------------------------------------------------------------

  /** What `DrawTextInternal` works with besides the text: format, font, scale and the renderer state it draws with. */
  datatype Pen = Pen(format: TextFormat, font: Font, scale: real, left: real, top: real,
                     hasMask: bool, mask: Rect, color: Rgba)

  /** The screen rectangle of a glyph whose baseline origin is (x, y). */
  function GlyphRect(x: real, y: real, g: GlyphInfo, scale: real): Rect
  {
    Rect(x + (g.minX as real) * scale, y - (g.maxY as real) * scale, x + (g.maxX as real) * scale, y - (g.minY as real) * scale)
  }

  /** The pen: where the next glyph's origin goes. */
  datatype PenPos = PenPos(x: real, y: real)

  /** The pen's x after a character: back to the left edge at '\n', else moved by the glyph's scaled advance. */
  function NextX(x: real, c: char, pen: Pen): (x': real)
    ensures c == '\n' ==> x' == pen.left
    ensures c != '\n' && IsControl(c) ==> x' == x
  {
    if c == '\n' then pen.left else x + Scaled(GlyphAdvance(c, pen.format.fontStyle, pen.font), pen.scale)
  }

  /** The pen's baseline after a character: one line height lower at '\n'. */
  function NextY(y: real, c: char, pen: Pen): (y': real)
    ensures c != '\n' ==> y' == y
    ensures c == '\n' ==> y' - y == pen.format.lineHeight
  {
    if c == '\n' then y + pen.format.lineHeight else y
  }

  /** The pen after text[start..i]; the baseline starts one font size below the top. */
  function PenAt(text: seq<char>, start: nat, i: nat, pen: Pen): (p: PenPos)
    requires start <= i <= |text|
    ensures i > start && text[i - 1] == '\n' ==> p.x == pen.left
    ensures (forall k :: start <= k < i ==> text[k] != '\n') ==> p.y == pen.top + pen.format.fontSize
    decreases i - start
  {
    if i == start then PenPos(pen.left, pen.top + pen.format.fontSize)
    else
      var p := PenAt(text, start, i - 1, pen);
      PenPos(NextX(p.x, text[i - 1], pen), NextY(p.y, text[i - 1], pen))
  }

  /** A character with a glyph is drawn as one rectangle at the pen; every other character draws nothing. */
  function GlyphFrame(f: Frame, p: PenPos, c: char, pen: Pen): Frame
  {
    if IsControl(c) then f
    else match pen.font.glyph(c, pen.format.fontStyle)
      case None => f
      case Some(g) =>
        FillRect(f, pen.hasMask, pen.mask, GlyphRect(p.x, p.y, g, pen.scale),
                 g.uvTopLeft, g.uvTopRight, g.uvBottomRight, g.uvBottomLeft, pen.color, pen.color, pen.color, pen.color)
  }

  /** `DrawTextInternal` over text[start..i]: the frame after drawing each character at its pen position. */
  function TypesetRange(text: seq<char>, start: nat, i: nat, pen: Pen, f: Frame): (g: Frame)
    requires start <= i <= |text|
    ensures |f.vertices| <= |g.vertices| && |f.indices| <= |g.indices|
    decreases i - start
  {
    if i == start then f
    else GlyphFrame(TypesetRange(text, start, i - 1, pen, f), PenAt(text, start, i - 1, pen), text[i - 1], pen)
  }

  /** One character more of text[start..i + 1]: the glyph drawn at the pen, and the pen moved past it. */
  lemma TypesetStep(text: seq<char>, start: nat, i: nat, pen: Pen, f: Frame)
    requires start <= i < |text|
    ensures TypesetRange(text, start, i + 1, pen, f) == GlyphFrame(TypesetRange(text, start, i, pen, f), PenAt(text, start, i, pen), text[i], pen)
    ensures var p := PenAt(text, start, i, pen);
      PenAt(text, start, i + 1, pen) == PenPos(NextX(p.x, text[i], pen), NextY(p.y, text[i], pen))
  {
  }

  /** The number of lines of a text. */
  function LineCount(s: seq<char>): nat
  {
    |Split(s)|
  }

  /** The advance of the last (current) line of a text. */
  function CurrentAdvance(s: seq<char>, style: FontStyle, font: Font): int
  {
    var lines := Split(s);
    Advance(lines[|lines| - 1], style, font)
  }

  /** One more character of text[start..i]: a '\n' adds a line, anything else leaves the count. */
  lemma LineCountStep(text: seq<char>, start: nat, i: nat)
    requires start < i <= |text|
    ensures LineCount(text[start..i]) == LineCount(text[start..i - 1]) + (if text[i - 1] == '\n' then 1 else 0)
  {
    assert text[start..i] == text[start..i - 1] + [text[i - 1]];
    LineCountSnoc(text[start..i - 1], text[i - 1]);
  }

  /** One more character of text[start..i]: a '\n' starts an empty line, anything else extends the current one. */
  lemma CurrentAdvanceStep(text: seq<char>, start: nat, i: nat, style: FontStyle, font: Font)
    requires start < i <= |text|
    ensures CurrentAdvance(text[start..i], style, font) ==
      if text[i - 1] == '\n' then 0 else CurrentAdvance(text[start..i - 1], style, font) + GlyphAdvance(text[i - 1], style, font)
  {
    assert text[start..i] == text[start..i - 1] + [text[i - 1]];
    CurrentAdvanceSnoc(text[start..i - 1], text[i - 1], style, font);
  }

  /** A '\n' adds a line; any other character does not. */
  lemma LineCountSnoc(s: seq<char>, c: char)
    ensures LineCount(s + [c]) == LineCount(s) + (if c == '\n' then 1 else 0)
  {
    SplitSnoc(s, c);
  }

  /** A '\n' starts an empty current line; any other character adds its advance to the current line. */
  lemma CurrentAdvanceSnoc(s: seq<char>, c: char, style: FontStyle, font: Font)
    ensures CurrentAdvance(s + [c], style, font) ==
      if c == '\n' then 0 else CurrentAdvance(s, style, font) + GlyphAdvance(c, style, font)
  {
    SplitSnoc(s, c);
    var p := Split(s);
    if c == '\n' {
      assert Split(s + [c])[|p|] == [];
    } else {
      AdvanceSnoc(p[|p| - 1], c, style, font);
    }
  }

  /** The lines of a text before its last (current) one. */
  function Finished(s: seq<char>): seq<seq<char>>
  {
    var lines := Split(s);
    lines[..|lines| - 1]
  }

  /** The widest of all lines is the wider of the finished lines and the current one. */
  lemma MaxAdvanceSplit(s: seq<char>, style: FontStyle, font: Font)
    ensures MaxAdvance(Split(s), style, font) ==
      var m := MaxAdvance(Finished(s), style, font);
      var a := CurrentAdvance(s, style, font);
      if a > m then a else m
  {
  }

  /** What the measuring loop keeps: the widest finished line, the current line's advance, the line count. */
  datatype Tally = Tally(widest: int, current: int, lines: nat)

  /** One character more: a '\n' finishes the current line, anything else extends it by its advance. */
  function TallyNext(t: Tally, c: char, style: FontStyle, font: Font): Tally
  {
    if c == '\n' then Tally(if t.current > t.widest then t.current else t.widest, 0, t.lines + 1)
    else Tally(t.widest, t.current + GlyphAdvance(c, style, font), t.lines)
  }

  /** The loop's state after a text, character by character from one empty line. */
  function TallyOf(s: seq<char>, style: FontStyle, font: Font): Tally
  {
    if |s| == 0 then Tally(0, 0, 1) else TallyNext(TallyOf(s[..|s| - 1], style, font), s[|s| - 1], style, font)
  }

  /** The tally of text[start..i + 1] is one step from that of text[start..i]. */
  lemma TallyOfStep(text: seq<char>, start: nat, i: nat, style: FontStyle, font: Font)
    requires start <= i < |text|
    ensures TallyOf(text[start..i + 1], style, font) == TallyNext(TallyOf(text[start..i], style, font), text[i], style, font)
  {
    assert text[start..i + 1][..i - start] == text[start..i];
  }

  /** The running tally agrees with the lines of the text: the loop computes the widest line and the line count. */
  lemma {:induction false} TallyIsLines(s: seq<char>, style: FontStyle, font: Font)
    ensures TallyOf(s, style, font) == Tally(MaxAdvance(Finished(s), style, font), CurrentAdvance(s, style, font), LineCount(s))
  {
    if |s| == 0 {
      assert Split(s) == [[]];
    } else {
      var r, c := s[..|s| - 1], s[|s| - 1];
      TallyIsLines(r, style, font);
      assert s == r + [c];
      LineCountSnoc(r, c);
      CurrentAdvanceSnoc(r, c, style, font);
      FinishedMaxSnoc(r, c, style, font);
    }
  }

  /** A '\n' makes the current line a finished one; any other character leaves the finished lines alone. */
  lemma FinishedMaxSnoc(s: seq<char>, c: char, style: FontStyle, font: Font)
    ensures MaxAdvance(Finished(s + [c]), style, font) ==
      var m := MaxAdvance(Finished(s), style, font);
      var a := CurrentAdvance(s, style, font);
      if c == '\n' && a > m then a else m
  {
    FinishedSnoc(s, c);
    if c == '\n' {
      MaxAdvanceSplit(s, style, font);
    }
  }

  /** One more character finishes the current line when it is a '\n', and leaves the finished lines alone otherwise. */
  lemma FinishedSnoc(s: seq<char>, c: char)
    ensures Finished(s + [c]) == if c == '\n' then Split(s) else Finished(s)
  {
    SplitSnoc(s, c);
    var p := Split(s);
    if c == '\n' {
      assert (p + [[]])[..|p|] == p;
    } else {
      assert (p[..|p| - 1] + [p[|p| - 1] + [c]])[..|p| - 1] == p[..|p| - 1];
    }
  }

  /** `Measure` of a non-empty text from the tally of its range: the wider of finished and current line, and the line count. */
  lemma MeasureFromTally(text: seq<char>, start: nat, end: nat, format: TextFormat, font: Font)
    requires start <= end <= |text| && font.lineHeight > 0 && |text| > 0
    ensures var t := TallyOf(text[start..end], format.fontStyle, font);
      Measure(text, start, end, format, font) ==
        Vec2(Scaled(if t.current > t.widest then t.current else t.widest, FontScale(format, font)), Stacked(format.lineHeight, t.lines))
  {
    TallyIsLines(text[start..end], format.fontStyle, font);
    MaxAdvanceSplit(text[start..end], format.fontStyle, font);
  }

  /** The pen's baseline drops one line height per '\n' passed. */
  lemma {:induction false} PenAtY(text: seq<char>, start: nat, i: nat, pen: Pen)
    requires start <= i <= |text|
    ensures PenAt(text, start, i, pen).y == pen.top + pen.format.fontSize + Stacked(pen.format.lineHeight, LineCount(text[start..i]) - 1)
    decreases i - start
  {
    if i == start {
      assert text[start..i] == [];
      assert Split([]) == [[]];
    } else {
      PenAtY(text, start, i - 1, pen);
      LineCountStep(text, start, i);
    }
  }

  /**
   * The pen's x sits after the scaled advance of the current line: a glyph is drawn where the
   * advances `Measure` counts have brought it.
   */
  lemma {:induction false} PenAtX(text: seq<char>, start: nat, i: nat, pen: Pen)
    requires start <= i <= |text|
    ensures PenAt(text, start, i, pen).x == pen.left + Scaled(CurrentAdvance(text[start..i], pen.format.fontStyle, pen.font), pen.scale)
    decreases i - start
  {
    var style := pen.format.fontStyle;
    if i == start {
      assert text[start..i] == [];
      assert Split([]) == [[]];
      assert Advance([], style, pen.font) == 0;
    } else {
      PenAtX(text, start, i - 1, pen);
      CurrentAdvanceStep(text, start, i, style, pen.font);
      ScaledAdd(CurrentAdvance(text[start..i - 1], style, pen.font), GlyphAdvance(text[i - 1], style, pen.font), pen.scale);
    }
  }

  /** Scaling distributes over a sum of lengths. */
  lemma ScaledAdd(a: int, g: int, s: real)
    ensures Scaled(a + g, s) == Scaled(a, s) + Scaled(g, s)
  {
  }

  /** Appending one character to a text either opens a new empty line or extends the last one. */
  lemma SplitSnoc(s: seq<char>, c: char)
    ensures var p := Split(s);
      Split(s + [c]) == if c == '\n' then p + [[]] else p[..|p| - 1] + [p[|p| - 1] + [c]]
  {
    assert (s + [c])[..|s|] == s;
  }

  lemma AdvanceSnoc(line: seq<char>, c: char, style: FontStyle, font: Font)
    ensures Advance(line + [c], style, font) == Advance(line, style, font) + GlyphAdvance(c, style, font)
  {
    assert (line + [c])[..|line|] == line;
  }

  /** The first position of c at or after start, if any. */
  function IndexOf(text: seq<char>, c: char, start: nat): (r: Option<nat>)
    requires start <= |text|
    ensures r.Some? ==> start <= r.value < |text| && text[r.value] == c && c !in text[start..r.value]
    ensures r.None? <==> c !in text[start..]
    decreases |text| - start
  {
    if start == |text| then None
    else if text[start] == c then Some(start)
    else
      var r := IndexOf(text, c, start + 1);
      assert text[start..] == [text[start]] + text[start + 1..];
      assert r.Some? ==> text[start..r.value] == [text[start]] + text[start + 1..r.value];
      r
  }

  /** The end of the line that starts at start: the next '\n' or the end of the text. */
  function LineEnd(text: seq<char>, start: nat): (r: nat)
    requires start <= |text|
    ensures start <= r <= |text|
    decreases |text| - start
  {
    if start == |text| || text[start] == '\n' then start else LineEnd(text, start + 1)
  }

  /** The end of a line is where the search for the next '\n' stops, or the end of the text when it finds none. */
  lemma {:induction false} LineEndIsIndexOf(text: seq<char>, start: nat)
    requires start <= |text|
    ensures IndexOf(text, '\n', start).None? ==> LineEnd(text, start) == |text|
    ensures IndexOf(text, '\n', start).Some? ==> LineEnd(text, start) == IndexOf(text, '\n', start).value
    decreases |text| - start
  {
    if start < |text| && text[start] != '\n' {
      LineEndIsIndexOf(text, start + 1);
    }
  }

  /**
   * The pen for one centred line of text[start..end]: from half the spare width of the area, at
   * the given top. The line holds no '\n', so its measured width is its advance (never below
   * zero) at the font scale.
   */
  function LinePen(text: seq<char>, start: nat, end: nat, top: real, area: Rect, pen: Pen): Pen
    requires start <= end <= |text| && pen.font.lineHeight > 0
  {
    var advance := Advance(text[start..end], pen.format.fontStyle, pen.font);
    var width := Scaled(if advance > 0 then advance else 0, FontScale(pen.format, pen.font));
    pen.(left := area.x + ((area.z - area.x) - width) / 2.0, top := top)
  }

  /** A line up to its `LineEnd` measures as wide as its advance, never below zero, at the font scale. */
  lemma LineMeasure(text: seq<char>, start: nat, format: TextFormat, font: Font)
    requires start <= |text| && font.lineHeight > 0
    ensures var end := LineEnd(text, start);
      var advance := Advance(text[start..end], format.fontStyle, font);
      Measure(text, start, end, format, font).x == Scaled(if advance > 0 then advance else 0, FontScale(format, font))
  {
    var end := LineEnd(text, start);
    var line := text[start..end];
    if |text| > 0 {
      LineIsSingle(text, start);
      assert [line][..0] == [];
      assert MaxAdvance([line], format.fontStyle, font) == MaxAdvance([], format.fontStyle, font) || MaxAdvance([line], format.fontStyle, font) == Advance(line, format.fontStyle, font);
    } else {
      assert line == [];
    }
  }

  /**
   * Centre alignment from the line starting at start: each line is measured, typeset with its
   * `LinePen`, and the next line starts one line height lower.
   */
  function CenterFrom(text: seq<char>, start: nat, top: real, area: Rect, pen: Pen, f: Frame): (g: Frame)
    requires start <= |text| && pen.font.lineHeight > 0
    ensures |f.vertices| <= |g.vertices| && |f.indices| <= |g.indices|
    decreases |text| - start
  {
    var end := LineEnd(text, start);
    var g := TypesetRange(text, start, end, LinePen(text, start, end, top, area, pen), f);
    if end == |text| then g else CenterFrom(text, end + 1, top + pen.format.lineHeight, area, pen, g)
  }

  /**
   * Centring from start, once the line up to `LineEnd` has been typeset with its `LinePen` into g:
   * that is all when the line ends the text, otherwise the rest follows one line height lower.
   */
  lemma CenterFromStep(text: seq<char>, start: nat, end: nat, top: real, lineHeight: real, area: Rect, pen: Pen, f: Frame, g: Frame)
    requires start <= |text| && pen.font.lineHeight > 0
    requires end == LineEnd(text, start) && lineHeight == pen.format.lineHeight
    requires g == TypesetRange(text, start, end, LinePen(text, start, end, top, area, pen), f)
    ensures end == |text| ==> CenterFrom(text, start, top, area, pen, f) == g
    ensures end < |text| ==> CenterFrom(text, start, top, area, pen, f) == CenterFrom(text, end + 1, top + lineHeight, area, pen, g)
  {
  }

  /** The text from start to the end of its line is a single line. */
  lemma LineIsSingle(text: seq<char>, start: nat)
    requires start <= |text|
    ensures Split(text[start..LineEnd(text, start)]) == [text[start..LineEnd(text, start)]]
  {
    var line := text[start..LineEnd(text, start)];
    LineEndIsIndexOf(text, start);
    assert '\n' !in line;
    assert multiset(line)['\n'] == 0;
    SplitCount(line);
    SplitJoin(line);
  }

  /**
   * A centred line whose advance is non-negative ends as far from the right edge of the area as
   * it starts from the left edge, when the line is typeset at the scale it was measured with.
   */
  lemma CenteredLineSymmetric(text: seq<char>, start: nat, area: Rect, top: real, pen: Pen)
    requires start <= |text| && pen.font.lineHeight > 0
    requires pen.scale == FontScale(pen.format, pen.font)
    requires Advance(text[start..LineEnd(text, start)], pen.format.fontStyle, pen.font) >= 0
    ensures var end := LineEnd(text, start);
      var p := LinePen(text, start, end, top, area, pen);
      area.z - PenAt(text, start, end, p).x == p.left - area.x
  {
    var end := LineEnd(text, start);
    var line := text[start..end];
    LineIsSingle(text, start);
    assert CurrentAdvance(line, pen.format.fontStyle, pen.font) == Advance(line, pen.format.fontStyle, pen.font);
    PenAtX(text, start, end, LinePen(text, start, end, top, area, pen));
  }
}