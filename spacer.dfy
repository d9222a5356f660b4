/**
 * The one-cell border of b'/' that the annotator lays around the field before
 * counting (`add_spacer_to_minefield`) and strips again afterwards
 * (`remove_spacer_from_minefield`).
 */
module Spacer {
  import opened Grid

  /** Cell (i, j) of the bordered field: b'/' on the outer rows and columns, input cell (i-1, j-1) inside. */
  function PadCell(g: Field, i: int, j: int): byte
    requires |g| > 0 && RowsCoverFirst(g)
    requires 0 <= i < |g| + 2 && 0 <= j < |g[0]| + 2
  {
    if i == 0 || i == |g| + 1 || j == 0 || j == |g[0]| + 1 then SPACER else g[i - 1][j - 1]
  }

  /** Row i of the bordered field. */
  function PadRow(g: Field, i: int): Row
    requires |g| > 0 && RowsCoverFirst(g)
    requires 0 <= i < |g| + 2
  {
    seq(|g[0]| + 2, j requires 0 <= j < |g[0]| + 2 => PadCell(g, i, j))
  }

  /** The bordered field: (R+2) rows of (C+2) cells for an R-row field of width C. */
  function Padded(g: Field): Field
    requires |g| > 0 && RowsCoverFirst(g)
  {
    seq(|g| + 2, i requires 0 <= i < |g| + 2 => PadRow(g, i))
  }

  /** `add_spacer_to_minefield`: fill a zeroed (R+2)x(C+2) buffer row by row. */
  method AddSpacer(minefield: Field) returns (padded: Field)
    requires |minefield| > 0 && RowsCoverFirst(minefield)
    ensures padded == Padded(minefield)
  {
    var newXLen := |minefield| + 2;
    var newYLen := |minefield[0]| + 2;
    var zeroRow: Row := seq(newYLen, _ => 0);
    padded := seq(newXLen, _ => zeroRow);
    for i := 0 to newXLen
      invariant |padded| == newXLen
      invariant forall a :: 0 <= a < i ==> padded[a] == PadRow(minefield, a)
      invariant forall a :: i <= a < newXLen ==> padded[a] == zeroRow
    {
      for j := 0 to newYLen
        invariant |padded| == newXLen && |padded[i]| == newYLen
        invariant forall a :: 0 <= a < i ==> padded[a] == PadRow(minefield, a)
        invariant forall a :: i < a < newXLen ==> padded[a] == zeroRow
        invariant forall b :: 0 <= b < j ==> padded[i][b] == PadCell(minefield, i, b)
      {
        if i == 0 || i == newXLen - 1 || j == 0 || j == newYLen - 1 {
          padded := padded[i := padded[i][j := SPACER]];
        } else {
          padded := padded[i := padded[i][j := minefield[i - 1][j - 1]]];
        }
      }
      assert padded[i] == PadRow(minefield, i);
    }
  }

  /** The bordered field has the promised shape, border and interior. */
  lemma PaddedShape(g: Field)
    requires |g| > 0 && RowsCoverFirst(g)
    ensures |Padded(g)| == |g| + 2
    ensures forall i :: 0 <= i < |g| + 2 ==> |Padded(g)[i]| == |g[0]| + 2
    ensures forall i, j :: 0 <= i < |g| + 2 && 0 <= j < |g[0]| + 2 && (i == 0 || i == |g| + 1 || j == 0 || j == |g[0]| + 1)
                ==> Padded(g)[i][j] == SPACER
    ensures forall i, j :: 1 <= i <= |g| && 1 <= j <= |g[0]| ==> Padded(g)[i][j] == g[i - 1][j - 1]
  {
  }

  /**
   * What `remove_spacer_from_minefield` needs not to panic: row 0 exists; and
   * when the loop body runs at all (three rows or more), row 0 is at least two
   * cells wide and every middle row reaches column `y_len - 1`.
   */
  predicate Trimmable(m: Field) {
    && |m| >= 1
    && (|m| >= 3 ==> |m[0]| >= 2 && forall i :: 1 <= i < |m| - 1 ==> |m[0]| - 1 <= |m[i]|)
  }

  /** The field without its outer rows and columns (columns counted by the width of row 0). */
  function Trimmed(m: Field): Field
    requires Trimmable(m)
  {
    if |m| < 3 then []
    else seq(|m| - 2, i requires 0 <= i < |m| - 2 => m[i + 1][1..|m[0]| - 1])
  }

  /** `remove_spacer_from_minefield`: push the inner slice of every middle row. */
  method RemoveSpacer(minefield: Field) returns (trimmed: Field)
    requires Trimmable(minefield)
    ensures trimmed == Trimmed(minefield)
  {
    var xLen := |minefield|;
    var yLen := |minefield[0]|;
    trimmed := [];
    var i := 1;
    while i < xLen - 1
      invariant i == 1 || (3 <= xLen && i <= xLen - 1)
      invariant |trimmed| == i - 1
      invariant forall a :: 0 <= a < i - 1 ==> trimmed[a] == minefield[a + 1][1..yLen - 1]
    {
      var rowSlice := minefield[i][1..yLen - 1];
      trimmed := trimmed + [rowSlice];
      i := i + 1;
    }
  }

  /** Stripping the border undoes laying it: the result is the field as it was read. */
  lemma TrimPadded(g: Field)
    requires |g| > 0 && RowsCoverFirst(g)
    ensures Trimmable(Padded(g))
    ensures Trimmed(Padded(g)) == Truncated(g)
  {
    var p := Padded(g);
    forall i | 0 <= i < |g| ensures Trimmed(p)[i] == Truncated(g)[i] {
      assert p[i + 1][1..|p[0]| - 1] == g[i][..|g[0]|];
    }
  }

  /** The round trip on a rectangular field gives the field back. */
  lemma TrimPaddedRectangular(g: Field)
    requires |g| > 0 && Rectangular(g)
    ensures RowsCoverFirst(g) && Trimmable(Padded(g))
    ensures Trimmed(Padded(g)) == g
  {
    TruncatedRectangular(g);
    TrimPadded(g);
  }
}
