/**
  Width-aware text helpers of the progress renderer: the display width of a
  string (every code point above 127 takes two terminal cells, every other
  code point one) and truncation of a string to a width budget with a ".."
  suffix. Strings are sequences of Unicode code points.
 */
module Layout {
  import opened GoInt

  /** A Unicode code point, as Go's `range` over a string yields it. */
  type CodePoint = c: int | 0 <= c <= 0x10FFFF

  const Dot: CodePoint := 0x2E
  /** The suffix appended to a truncated string. */
  const Ellipsis: seq<CodePoint> := [Dot, Dot]

  /** Cells taken by one code point. */
  function CellWidth(c: CodePoint): nat
  {
    if c > 127 then 2 else 1
  }

  /** Display width of `s`, accumulated left to right as the source loop does. */
  function DisplayWidth(s: seq<CodePoint>): (w: nat)
    ensures |s| <= w <= 2 * |s|
  {
    if |s| == 0 then 0 else DisplayWidth(s[..|s| - 1]) + CellWidth(s[|s| - 1])
  }

  /** Positions of the double-width code points of `s`. */
  function WideIndices(s: seq<CodePoint>): set<nat>
  {
    set i: nat | i < |s| && s[i] > 127
  }

  /** Display width is the number of code points plus the number of wide ones. */
  lemma {:induction false} DisplayWidthCounts(s: seq<CodePoint>)
    ensures DisplayWidth(s) == |s| + |WideIndices(s)|
  {
    if |s| > 0 {
      var p := s[..|s| - 1];
      DisplayWidthCounts(p);
      if s[|s| - 1] > 127 {
        assert WideIndices(s) == WideIndices(p) + {|s| - 1};
      } else {
        assert WideIndices(s) == WideIndices(p);
      }
    }
  }

  /** An all-ASCII string of N code points is N cells wide. */
  lemma {:induction false} DisplayWidthAscii(s: seq<CodePoint>)
    requires forall i :: 0 <= i < |s| ==> s[i] <= 127
    ensures DisplayWidth(s) == |s|
  {
    if |s| > 0 {
      DisplayWidthAscii(s[..|s| - 1]);
    }
  }

  /** A string of N code points, all above 127, is 2N cells wide. */
  lemma {:induction false} DisplayWidthWide(s: seq<CodePoint>)
    requires forall i :: 0 <= i < |s| ==> s[i] > 127
    ensures DisplayWidth(s) == 2 * |s|
  {
    if |s| > 0 {
      DisplayWidthWide(s[..|s| - 1]);
    }
  }

  /** Width is additive over concatenation. */
  lemma {:induction false} DisplayWidthAppend(a: seq<CodePoint>, b: seq<CodePoint>)
    ensures DisplayWidth(a + b) == DisplayWidth(a) + DisplayWidth(b)
  {
    if |b| == 0 {
      assert a + b == a;
    } else {
      var b' := b[..|b| - 1];
      assert (a + b)[..|a + b| - 1] == a + b';
      DisplayWidthAppend(a, b');
    }
  }

  /** Every extra code point of a longer prefix adds at least one cell. */
  lemma PrefixWidthGrows(s: seq<CodePoint>, i: nat, j: nat)
    requires i <= j <= |s|
    ensures DisplayWidth(s[..i]) + (j - i) <= DisplayWidth(s[..j])
  {
    assert s[..j] == s[..i] + s[i..j];
    DisplayWidthAppend(s[..i], s[i..j]);
  }

  /**
    Length of the longest prefix of `s` whose width fits `target`; 0 when not
    even the first code point fits (also when `target` is negative).
   */
  function FitLength(s: seq<CodePoint>, target: int): (k: nat)
    ensures k <= |s|
    ensures k == 0 || DisplayWidth(s[..k]) <= target
    ensures k == |s| || DisplayWidth(s[..k + 1]) > target
  {
    if |s| == 0 then 0
    else if DisplayWidth(s) <= target then |s|
    else
      var k := FitLength(s[..|s| - 1], target);
      assert s[..|s| - 1][..k] == s[..k];
      assert k < |s| - 1 ==> s[..|s| - 1][..k + 1] == s[..k + 1];
      assert s[..|s|] == s;
      k
  }

  /** Once a prefix is too wide, every longer prefix is too. */
  lemma LongerPrefixOverflows(s: seq<CodePoint>, target: int, k: nat, j: nat)
    requires k < j <= |s| && DisplayWidth(s[..k + 1]) > target
    ensures DisplayWidth(s[..j]) > target
  {
    PrefixWidthGrows(s, k + 1, j);
  }

  /** The two properties of FitLength single out one prefix length. */
  lemma FitLengthUnique(s: seq<CodePoint>, target: int, k: nat)
    requires k <= |s|
    requires k == 0 || DisplayWidth(s[..k]) <= target
    requires k == |s| || DisplayWidth(s[..k + 1]) > target
    ensures k == FitLength(s, target)
  {
    var f := FitLength(s, target);
    if k < f {
      LongerPrefixOverflows(s, target, k, f);
    } else if f < k {
      LongerPrefixOverflows(s, target, f, k);
    }
  }

  /**
    The budget for the text in front of "..": `maxWidth - 2` in Go's int,
    which wraps around for the two smallest budgets.
   */
  function TargetWidth(maxWidth: Int64): (target: Int64)
    ensures target == Wrap64(maxWidth - 2)
    ensures maxWidth >= MinInt64 + 2 ==> target == maxWidth - 2
    ensures maxWidth < MinInt64 + 2 ==> target >= MaxInt64 - 1
  {
    if maxWidth >= MinInt64 + 2 then maxWidth - 2 else maxWidth - 2 + Modulus64
  }

  /**
    The text truncateByWidth returns: `s` itself when it fits `maxWidth`,
    otherwise the longest prefix fitting the target width followed by "..".
    The scan falls through to returning `s` when no prefix passes the
    target: for the empty string under a negative budget, and for the two
    smallest budgets, whose target wraps around to the largest ints.
   */
  function Truncate(s: seq<CodePoint>, maxWidth: Int64): (r: seq<CodePoint>)
    ensures r == s || (2 <= |r| < |s| + 2 && r == s[..|r| - 2] + Ellipsis)
  {
    var target := TargetWidth(maxWidth);
    if DisplayWidth(s) <= maxWidth || DisplayWidth(s) <= target || |s| == 0 then s
    else
      assert s[..|s|] == s;
      s[..FitLength(s, target)] + Ellipsis
  }

  /** The suffix takes two cells. */
  lemma EllipsisWidth()
    ensures DisplayWidth(Ellipsis) == 2
  {

  }

  /** A string that fits is returned unchanged. */
  lemma TruncateKeepsFitting(s: seq<CodePoint>, maxWidth: Int64)
    requires DisplayWidth(s) <= maxWidth
    ensures Truncate(s, maxWidth) == s
  {
  }

  /**
    A string that does not fit, and whose full width passes the target, is
    cut to a proper prefix that fits the target and that no longer prefix
    fits, followed by "..".
   */
  lemma TruncateLongestPrefix(s: seq<CodePoint>, maxWidth: Int64)
    requires DisplayWidth(s) > maxWidth && DisplayWidth(s) > TargetWidth(maxWidth) && |s| > 0
    ensures var r := Truncate(s, maxWidth); var k := |r| - 2; var target := TargetWidth(maxWidth);
      && 0 <= k < |s|
      && r == s[..k] + Ellipsis
      && (k == 0 || DisplayWidth(s[..k]) <= target)
      && (forall j :: k < j <= |s| ==> DisplayWidth(s[..j]) > target)
  {
    var target := TargetWidth(maxWidth);
    var k := FitLength(s, target);
    assert s[..|s|] == s;
    assert Truncate(s, maxWidth) == s[..k] + Ellipsis;
    forall j | k < j <= |s|
      ensures DisplayWidth(s[..j]) > target
    {
      LongerPrefixOverflows(s, target, k, j);
    }
  }

  /**
    For the two smallest budgets the target wraps around to the largest
    ints, so the scan never cuts and any string that fits there comes back
    whole.
   */
  lemma TruncateWrappedBudget(s: seq<CodePoint>, maxWidth: Int64)
    requires maxWidth < MinInt64 + 2 && DisplayWidth(s) <= MaxInt64 - 1
    ensures Truncate(s, maxWidth) == s
  {
    assert TargetWidth(maxWidth) >= MaxInt64 - 1;
  }

  /** With room for the suffix, the truncated text never exceeds the budget. */
  lemma TruncateWithinWidth(s: seq<CodePoint>, maxWidth: Int64)
    requires maxWidth >= 2
    ensures DisplayWidth(Truncate(s, maxWidth)) <= maxWidth
  {
    if DisplayWidth(s) > maxWidth && |s| > 0 {
      var k := FitLength(s, maxWidth - 2);
      DisplayWidthAppend(s[..k], Ellipsis);
      EllipsisWidth();
    }
  }

  /**
    Below a budget of two cells a non-empty string becomes "..", which is
    wider than the budget: the bound above needs its precondition. The two
    smallest budgets wrap around instead (see TruncateWrappedBudget).
   */
  lemma TruncateNarrowOverflows(s: seq<CodePoint>, maxWidth: Int64)
    requires MinInt64 + 2 <= maxWidth < 2 && |s| > 0 && DisplayWidth(s) > maxWidth
    ensures Truncate(s, maxWidth) == Ellipsis
    ensures DisplayWidth(Truncate(s, maxWidth)) > maxWidth
  {
    var target := TargetWidth(maxWidth);
    assert target == maxWidth - 2 < 0;
    var k := FitLength(s, target);
    assert |s[..k]| <= DisplayWidth(s[..k]);
  }

  /** One more code point adds its own cells to a prefix's width. */
  lemma PrefixWidthStep(s: seq<CodePoint>, i: nat)
    requires i < |s|
    ensures DisplayWidth(s[..i + 1]) == DisplayWidth(s[..i]) + CellWidth(s[i])
  {
    assert s[..i + 1][..i] == s[..i];
  }

  /** Where the scan stops, the declarative truncation cuts too. */
  lemma TruncateStopsAt(s: seq<CodePoint>, maxWidth: Int64, i: nat)
    requires DisplayWidth(s) > maxWidth && i < |s|
    requires i == 0 || DisplayWidth(s[..i]) <= TargetWidth(maxWidth)
    requires DisplayWidth(s[..i + 1]) > TargetWidth(maxWidth)
    ensures Truncate(s, maxWidth) == s[..i] + Ellipsis
  {
    var target := TargetWidth(maxWidth);
    PrefixWidthGrows(s, i + 1, |s|);
    assert s[..|s|] == s;
    FitLengthUnique(s, target, i);
  }

  /** displayWidth as the source computes it: one pass over the code points. */
  method MeasureWidth(s: seq<CodePoint>) returns (width: nat)
    ensures width == DisplayWidth(s)
    ensures width == |s| + |WideIndices(s)|
  {
    width := 0;
    var i := 0;
    while i < |s|
      invariant 0 <= i <= |s|
      invariant width == DisplayWidth(s[..i])
    {
      PrefixWidthStep(s, i);
      if s[i] > 127 {
        width := width + 2;
      } else {
        width := width + 1;
      }
      i := i + 1;
    }
    assert s[..|s|] == s;
    DisplayWidthCounts(s);
  }

  /**
    truncateByWidth as the source computes it: a fitting string is returned
    as is; otherwise code points are accumulated until the next one would
    pass the target width. The loop runs to completion, reaching the
    source's final `return s`, only when `s` is empty and `maxWidth`
    negative, or when the target has wrapped around.
   */
  method TruncateByWidth(s: seq<CodePoint>, maxWidth: Int64) returns (r: seq<CodePoint>)
    ensures r == Truncate(s, maxWidth)
  {
    var total := MeasureWidth(s);
    if total <= maxWidth {
      return s;
    }
    var target := TargetWidth(maxWidth);
    var currentWidth: int := 0;
    var i := 0;
    while i < |s|
      invariant 0 <= i <= |s|
      invariant currentWidth == DisplayWidth(s[..i])
      invariant i == 0 || currentWidth <= target
    {
      var w := 1;
      if s[i] > 127 {
        w := 2;
      }
      PrefixWidthStep(s, i);
      if currentWidth + w > target {
        TruncateStopsAt(s, maxWidth, i);
        return s[..i] + Ellipsis;
      }
      currentWidth := currentWidth + w;
      i := i + 1;
    }
    assert s[..i] == s;
    return s;
  }
}
