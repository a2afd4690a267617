/**
  One line of the progress display (ProgressTracker.String): a name column
  35 cells wide, then " [", a bar whose width follows the terminal width,
  and "] ". The percentage text that follows in the source is not modelled.
 */
module Render {
  import opened GoInt
  import opened Layout
  import opened Counter

  /** Cells reserved for the name column. */
  const NameWidth: int := 35
  /** Name column, " [", "] " and the four-cell percentage field. */
  const FixedOverhead: int := NameWidth + 2 + 2 + 4
  /** The bar never gets narrower than this. */
  const MinBarWidth: int := 10

  const Space: CodePoint := 0x20
  const OpenBracket: CodePoint := 0x5B
  const CloseBracket: CodePoint := 0x5D
  /** U+2587, the filled bar cell. */
  const Solid: CodePoint := 0x2587
  /** U+00B7, the empty bar cell. */
  const LightDot: CodePoint := 0xB7
  const MouthRight: CodePoint := 0x3E
  const MouthLeft: CodePoint := 0x3C

  function Repeat(c: CodePoint, n: nat): (r: seq<CodePoint>)
    ensures |r| == n && forall i :: 0 <= i < n ==> r[i] == c
  {
    seq(n, _ => c)
  }

  /**
    Bar width for a terminal `termWidth` columns wide: the room left by the
    fixed overhead and one spare column, but at least MinBarWidth. The
    subtraction is in Go's int and wraps around for widths within 44 of the
    smallest int, giving a width of nearly the largest int, for which the
    source's String panics when it repeats the bar glyphs.
   */
  function BarWidth(termWidth: Int64): (width: Int64)
    ensures width >= MinBarWidth
    ensures width == MinBarWidth || width == Wrap64(termWidth - FixedOverhead - 1)
    ensures termWidth >= MinInt64 + FixedOverhead + 1 ==>
      width >= termWidth - FixedOverhead - 1 && (width == MinBarWidth || width == termWidth - FixedOverhead - 1)
    ensures termWidth < MinInt64 + FixedOverhead + 1 ==> width >= MaxInt64 - FixedOverhead
  {
    var room := RoomForBar(termWidth);
    if room < MinBarWidth then MinBarWidth else room
  }

  /** `termWidth - 44` in Go's int. */
  function RoomForBar(termWidth: Int64): (room: Int64)
    ensures room == Wrap64(termWidth - FixedOverhead - 1)
    ensures termWidth >= MinInt64 + FixedOverhead + 1 ==> room == termWidth - FixedOverhead - 1
    ensures termWidth < MinInt64 + FixedOverhead + 1 ==> room >= MaxInt64 - FixedOverhead
  {
    var exact := termWidth - FixedOverhead - 1;
    if exact >= MinInt64 then exact else exact + Modulus64
  }

  /**
    Number of filled cells: the share current/total of the bar, rounded
    down, and 0 for a total that is not positive; then kept inside the bar
    so that the mouth cell always exists.
   */
  function FillPosition(current: int, total: int, width: int): (pos: int)
    requires width >= 1
    ensures 0 <= pos < width
  {
    var raw := if total > 0 then current * width / total else 0;
    if raw >= width then width - 1
    else if raw < 0 then 0
    else raw
  }

  /** Multiplying both sides by a positive factor preserves strict order. */
  lemma MulCancel(x: int, y: int, d: int)
    requires d > 0 && d * x < d * y
    ensures x < y
  {
  }

  lemma DivMonotone(a: int, b: int, d: int)
    requires a <= b && d > 0
    ensures a / d <= b / d
  {
    assert d * (a / d) <= a <= b < d * (b / d) + d;
    assert d * (a / d) < d * (b / d + 1);
    MulCancel(a / d, b / d + 1, d);
  }

  /**
    Below the total, the fill position is exactly the floor of the share:
    pos/width <= current/total < (pos+1)/width.
   */
  lemma FillPositionIsFloor(current: int, total: int, width: int)
    requires width >= 1 && total > 0 && 0 <= current < total
    ensures var pos := FillPosition(current, total, width);
      pos * total <= current * width < (pos + 1) * total
  {

  }

  /** At or above the total the bar is filled up to its last cell. */
  lemma FillPositionSaturates(current: int, total: int, width: int)
    requires width >= 1 && total > 0 && current >= total
    ensures FillPosition(current, total, width) == width - 1
  {
    var x := current * width;
    var raw := x / total;
    assert x >= total * width;
    assert total * (raw + 1) > total * width;
    MulCancel(width, raw + 1, total);
  }

  /** With no known total, or no progress at all, nothing is filled. */
  lemma FillPositionEmpty(current: int, total: int, width: int)
    requires width >= 1 && (total <= 0 || current <= 0)
    ensures FillPosition(current, total, width) == 0
  {

  }

  /** More progress never moves the fill position back. */
  lemma FillPositionMonotone(c1: int, c2: int, total: int, width: int)
    requires width >= 1 && c1 <= c2
    ensures FillPosition(c1, total, width) <= FillPosition(c2, total, width)
  {
    if total > 0 {
      assert c1 * width <= c2 * width;
      DivMonotone(c1 * width, c2 * width, total);
    }
  }

  /**
    The cell right after the filled cells: solid once the total is reached,
    otherwise '>' or '<' by the parity of the fill position.
   */
  function Mouth(pos: int, current: int, total: int): (c: CodePoint)
    ensures c == Solid || c == MouthRight || c == MouthLeft
    ensures c == Solid <==> current >= total
  {
    if current >= total then Solid
    else if pos % 2 != 0 then MouthLeft
    else MouthRight
  }

  /** The bar of `t` on a terminal `termWidth` columns wide, without brackets. */
  function ProgressBar(t: Tracker, termWidth: Int64): (bar: seq<CodePoint>)
    ensures |bar| == BarWidth(termWidth)
  {
    var width := BarWidth(termWidth);
    var pos := FillPosition(t.current, t.total, width);
    Repeat(Solid, pos) + [Mouth(pos, t.current, t.total)] + Repeat(LightDot, width - pos - 1)
  }

  /**
    Bar geometry: exactly `width` cells, `pos` solid ones, then the mouth,
    then `width - pos - 1` dots.
   */
  lemma BarGeometry(t: Tracker, termWidth: Int64)
    ensures var bar := ProgressBar(t, termWidth);
      var width := BarWidth(termWidth);
      var pos := FillPosition(t.current, t.total, width);
      && |bar| == width
      && (forall i :: 0 <= i < pos ==> bar[i] == Solid)
      && bar[pos] == Mouth(pos, t.current, t.total)
      && (forall i :: pos < i < width ==> bar[i] == LightDot)
  {
  }

  /**
    The mouth cell is solid exactly when the counter has reached its total,
    and otherwise '>' on an even and '<' on an odd fill position.
   */
  lemma MouthShape(t: Tracker, termWidth: Int64)
    ensures var bar := ProgressBar(t, termWidth);
      var pos := FillPosition(t.current, t.total, BarWidth(termWidth));
      && (bar[pos] == Solid <==> t.current >= t.total)
      && (bar[pos] == MouthRight <==> t.current < t.total && pos % 2 == 0)
      && (bar[pos] == MouthLeft <==> t.current < t.total && pos % 2 == 1)
  {

  }

  /** A counter with a positive total that has reached it shows an all-solid bar. */
  lemma CompletedBarIsSolid(t: Tracker, termWidth: Int64)
    requires t.total > 0 && t.current >= t.total
    ensures forall i :: 0 <= i < |ProgressBar(t, termWidth)| ==> ProgressBar(t, termWidth)[i] == Solid
  {
    FillPositionSaturates(t.current, t.total, BarWidth(termWidth));
    BarGeometry(t, termWidth);
  }

  /**
    A counter with total 0 (unknown size) shows one solid cell followed by
    dots: the fill position is 0 and, as current >= 0 = total, the mouth is
    solid.
   */
  lemma UnknownTotalBar(t: Tracker, termWidth: Int64)
    requires t.total == 0 && t.current >= 0
    ensures ProgressBar(t, termWidth) == [Solid] + Repeat(LightDot, BarWidth(termWidth) - 1)
  {

  }

  /** The name, truncated to the column, then padded with spaces to fill it. */
  function NameColumn(name: seq<CodePoint>): seq<CodePoint>
  {
    var shown := Truncate(name, NameWidth);
    var padding := NameWidth - DisplayWidth(shown);
    shown + Repeat(Space, if padding < 0 then 0 else padding)
  }

  /**
    The name column is always exactly 35 cells wide: the truncated name fits,
    so the padding is never negative, and it starts with the (truncated) name.
   */
  lemma NameColumnWidth(name: seq<CodePoint>)
    ensures var shown := Truncate(name, NameWidth);
      && DisplayWidth(shown) <= NameWidth
      && DisplayWidth(NameColumn(name)) == NameWidth
      && NameColumn(name)[..|shown|] == shown
  {
    var shown := Truncate(name, NameWidth);
    TruncateWithinWidth(name, NameWidth);
    var pad := Repeat(Space, NameWidth - DisplayWidth(shown));
    DisplayWidthAscii(pad);
    DisplayWidthAppend(shown, pad);
    assert (shown + pad)[..|shown|] == shown;
  }

  /** The rendered line up to the percentage field. */
  function Line(t: Tracker, termWidth: Int64): (line: seq<CodePoint>)
    ensures |line| == |NameColumn(t.name)| + BarWidth(termWidth) + 4
  {
    NameColumn(t.name) + [Space, OpenBracket] + ProgressBar(t, termWidth) + [CloseBracket, Space]
  }

  /**
    Line layout: the name column, a space, '[', exactly `width` bar cells,
    ']' and a space; a bar of a fixed width regardless of the counter.
   */
  lemma LineLayout(t: Tracker, termWidth: Int64)
    ensures var line := Line(t, termWidth);
      var c := |NameColumn(t.name)|;
      var width := BarWidth(termWidth);
      && |line| == c + width + 4
      && line[..c] == NameColumn(t.name)
      && line[c] == Space && line[c + 1] == OpenBracket
      && line[c + 2..c + 2 + width] == ProgressBar(t, termWidth)
      && line[c + 2 + width] == CloseBracket && line[c + 3 + width] == Space
  {

  }
}
