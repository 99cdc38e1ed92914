/**
 * The flow layout of a panel (`AddChildAuto` and `BreakLine` in DebugUiPanel.cs) on values: a
 * cursor moves right past each control it places, and a line break moves it back to the left
 * border and down past the tallest control of the line and the line spacing.
 */
module FlowLayout {
  /** Where the next control goes, and how tall the current line is so far. */
  datatype Cursor = Cursor(x: real, y: real, lineHeight: real)

  /** A control placed with its size at that moment, or a line break with the border and spacing at that moment. */
  datatype FlowStep = Place(width: real, height: real) | Break(left: real, spacing: real)

  /** The cursor of a new panel: both coordinates at the border width, an empty line. */
  function Start(borderWidth: real): (c: Cursor)
    ensures c.x == c.y == borderWidth && c.lineHeight == 0.0
  {
    Cursor(borderWidth, borderWidth, 0.0)
  }

  /** The larger of two values, as `Math.Max` picks it. */
  function Max(a: real, b: real): (m: real)
    ensures m >= a && m >= b && (m == a || m == b)
  {
    if a >= b then a else b
  }

  /** One step of the layout. */
  function Step(c: Cursor, s: FlowStep): Cursor
  {
    match s
    case Place(w, h) => Cursor(c.x + w, c.y, Max(c.lineHeight, h))
    case Break(left, spacing) => Cursor(left, c.y + c.lineHeight + spacing, 0.0)
  }

  /** The cursor after some steps. */
  function Run(start: Cursor, steps: seq<FlowStep>): Cursor
  {
    if |steps| == 0 then start else Step(Run(start, steps[..|steps| - 1]), steps[|steps| - 1])
  }

  /** Sizes and spacings that are not negative. */
  predicate NonNegative(steps: seq<FlowStep>)
  {
    forall k :: 0 <= k < |steps| ==>
      match steps[k]
      case Place(w, h) => w >= 0.0 && h >= 0.0
      case Break(_, spacing) => spacing >= 0.0
  }

  /** The current line is never negatively tall when it starts empty. */
  lemma {:induction false} LineHeightNonNegative(start: Cursor, steps: seq<FlowStep>)
    requires start.lineHeight >= 0.0
    ensures Run(start, steps).lineHeight >= 0.0
  {
    if |steps| > 0 {
      LineHeightNonNegative(start, steps[..|steps| - 1]);
    }
  }

  /** Whether a line break happens among steps[from..to]. */
  predicate BreakBetween(steps: seq<FlowStep>, from: int, to: int)
    requires 0 <= from <= to <= |steps|
  {
    exists m :: from <= m < to && steps[m].Break?
  }

  /**
   * Controls placed by the layout never overlap. Take the control placed at step i and a
   * later step j. With no line break in between, the cursor at j is on the same line and to
   * the right of that control, and the line is at least as tall as it. After a line break,
   * the cursor at j is below it.
   */
  lemma {:induction false} PlacedControlsDoNotOverlap(start: Cursor, steps: seq<FlowStep>, i: nat, j: nat)
    requires start.lineHeight >= 0.0 && NonNegative(steps)
    requires i < j <= |steps| && steps[i].Place?
    ensures var before, at := Run(start, steps[..i]), Run(start, steps[..j]);
      if BreakBetween(steps, i + 1, j) then at.y >= before.y + steps[i].height
      else at.y == before.y && at.x >= before.x + steps[i].width && at.lineHeight >= steps[i].height
  {
    var before := Run(start, steps[..i]);
    assert steps[..j][..j - 1] == steps[..j - 1];
    if j == i + 1 {
      assert !BreakBetween(steps, i + 1, j);
    } else {
      PlacedControlsDoNotOverlap(start, steps, i, j - 1);
      var prev := Run(start, steps[..j - 1]);
      assert Run(start, steps[..j]) == Step(prev, steps[j - 1]);
      match steps[j - 1]
      case Place(w, h) => {
        assert w >= 0.0;
        if BreakBetween(steps, i + 1, j) {
          var m :| i + 1 <= m < j && steps[m].Break?;
          assert BreakBetween(steps, i + 1, j - 1);
        }
      }
      case Break(_, spacing) => {
        assert spacing >= 0.0;
        assert BreakBetween(steps, i + 1, j);
        LineHeightNonNegative(start, steps[..j - 1]);
      }
    }
  }
}
