/**
 * The annotator's entry points `annotate` and `minefield_calculation`: lay a
 * b'/' border around the field, count, strip the border. The lemmas here show
 * that the border makes every neighbour read safe and does not change any
 * count, so the pipeline annotates the field exactly as counting on the bare
 * field would.
 */
module Annotator {
  import opened Grid
  import opened Spacer
  import opened MineCount

  /**
   * Only inner cells of a bordered field can be b' ' (the border is b'/'), so
   * all eight neighbours of every b' ' cell lie inside it: counting on a
   * bordered field never indexes out of bounds.
   */
  lemma PaddedNeighboursInBounds(g: Field)
    requires |g| > 0 && RowsCoverFirst(g)
    ensures NeighboursInBounds(Padded(g))
  {
    PaddedShape(g);
  }

  /**
   * Two windows whose mines lie at the same offsets have the same count of
   * row i+di up to dj (ColSum, whose value ColPrefixSize gives as a set size).
   */
  lemma {:induction false} ColSumShift(m: Field, i: int, j: int, n: Field, oi: int, oj: int, di: int, dj: int)
    requires -1 <= di <= 1 && -1 <= dj <= 2
    requires forall a, b :: i - 1 <= a <= i + 1 && j - 1 <= b <= j + 1 ==> (IsMineAt(m, a, b) <==> IsMineAt(n, a - oi, b - oj))
    ensures ColSum(m, i, j, di, dj) == ColSum(n, i - oi, j - oj, di, dj)
    decreases dj + 1
  {
    if dj != -1 {
      ColSumShift(m, i, j, n, oi, oj, di, dj - 1);
      assert IsMineAt(m, i + di, j + dj - 1) <==> IsMineAt(n, i - oi + di, j - oj + dj - 1);
    }
  }

  /**
   * Two windows whose mines lie at the same offsets have the same count up to
   * row di (RowSum, whose value RowPrefixSize gives as a set size).
   */
  lemma {:induction false} RowSumShift(m: Field, i: int, j: int, n: Field, oi: int, oj: int, di: int)
    requires -1 <= di <= 2
    requires forall a, b :: i - 1 <= a <= i + 1 && j - 1 <= b <= j + 1 ==> (IsMineAt(m, a, b) <==> IsMineAt(n, a - oi, b - oj))
    ensures RowSum(m, i, j, di) == RowSum(n, i - oi, j - oj, di)
    decreases di + 1
  {
    if di != -1 {
      RowSumShift(m, i, j, n, oi, oj, di - 1);
      ColSumShift(m, i, j, n, oi, oj, di - 1, 2);
    }
  }

  /** Position (a, b) of the bordered field holds a mine exactly when (a-1, b-1) of the field as read does. */
  lemma PaddedMineAt(g: Field, a: int, b: int)
    requires |g| > 0 && RowsCoverFirst(g)
    ensures IsMineAt(Padded(g), a, b) <==> IsMineAt(Truncated(g), a - 1, b - 1)
  {
    var p := Padded(g);
    if 0 <= a < |g| + 2 && 0 <= b < |g[0]| + 2 {
      assert p[a][b] == PadCell(g, a, b);
    }
  }

  /**
   * Inner cell (i+1, j+1) of the bordered field has as many neighbouring
   * mines as cell (i, j) of the field as read: a border cell is b'/', never a
   * mine, just as a position outside the bare field is none.
   */
  lemma PaddedCountAgrees(g: Field, i: int, j: int)
    requires |g| > 0 && RowsCoverFirst(g)
    requires 0 <= i < |g| && 0 <= j < |g[0]|
    ensures NeighbourMines(Padded(g), i + 1, j + 1) == NeighbourMines(Truncated(g), i, j)
  {
    var p := Padded(g);
    var t := Truncated(g);
    forall a, b | i <= a <= i + 2 && j <= b <= j + 2
      ensures IsMineAt(p, a, b) <==> IsMineAt(t, a - 1, b - 1)
    {
      PaddedMineAt(g, a, b);
    }
    RowSumShift(p, i + 1, j + 1, t, 1, 1, 2);
  }

  /** Cell (i, j) of the pipeline's result is the annotation of cell (i, j) of the field as read. */
  lemma PipelineCell(g: Field, i: int, j: int)
    requires |g| > 0 && RowsCoverFirst(g)
    requires 0 <= i < |g| && 0 <= j < |g[0]|
    requires Trimmable(Marked(Padded(g)))
    requires |Trimmed(Marked(Padded(g)))| == |g| && |Trimmed(Marked(Padded(g)))[i]| == |g[0]|
    ensures Trimmed(Marked(Padded(g)))[i][j] == MarkedCell(Truncated(g), i, j)
  {
    var p := Padded(g);
    var counted := Marked(p);
    assert p[i + 1] == PadRow(g, i + 1);
    assert counted[i + 1] == MarkedRow(p, i + 1);
    assert Trimmed(counted)[i] == counted[i + 1][1..|counted[0]| - 1];
    PaddedCountAgrees(g, i, j);
  }

  /**
   * Counting on the bordered field and stripping the border gives the
   * annotation of the field as read: the pipeline's result.
   */
  lemma PipelineAnnotates(g: Field)
    requires |g| > 0 && RowsCoverFirst(g)
    ensures Trimmable(Marked(Padded(g)))
    ensures Trimmed(Marked(Padded(g))) == Marked(Truncated(g))
  {
    var p := Padded(g);
    var t := Truncated(g);
    var counted := Marked(p);
    PaddedShape(g);
    MarkedShape(p);
    MarkedShape(t);
    assert Trimmable(counted);
    var result := Trimmed(counted);
    forall i | 0 <= i < |g| ensures result[i] == Marked(t)[i] {
      forall j | 0 <= j < |g[0]| ensures result[i][j] == Marked(t)[i][j] {
        PipelineCell(g, i, j);
        assert Marked(t)[i] == MarkedRow(t, i);
      }
    }
  }

  /**
   * `annotate`: an empty field gives an empty result; otherwise border,
   * count, strip. The result has the field's shape and is its annotation.
   */
  method Annotate(minefield: Field) returns (annotated: Field)
    requires RowsCoverFirst(minefield)
    ensures annotated == Marked(Truncated(minefield))
    ensures |minefield| == 0 ==> annotated == []
    ensures |annotated| == |minefield|
    ensures forall r :: 0 <= r < |annotated| ==> |annotated[r]| == |minefield[0]|
    ensures Rectangular(minefield) ==> annotated == Marked(minefield)
  {
    if |minefield| == 0 {
      return [];
    }
    var minefieldWithSpacer := AddSpacer(minefield);
    PaddedNeighboursInBounds(minefield);
    var outputWithSpacer := CountMines(minefieldWithSpacer);
    PipelineAnnotates(minefield);
    annotated := RemoveSpacer(outputWithSpacer);
    if Rectangular(minefield) {
      TruncatedRectangular(minefield);
    }
  }

  /**
   * `minefield_calculation`: the same pipeline behind the file-driven tests;
   * its result is the one `annotate` gives.
   */
  method MinefieldCalculation(minefield: Field) returns (annotated: Field)
    requires RowsCoverFirst(minefield)
    ensures annotated == Marked(Truncated(minefield))
    ensures |minefield| == 0 ==> annotated == []
  {
    if |minefield| == 0 {
      return [];
    }
    var minefieldWithSpacer := AddSpacer(minefield);
    PaddedNeighboursInBounds(minefield);
    var outputWithSpacer := CountMines(minefieldWithSpacer);
    PipelineAnnotates(minefield);
    annotated := RemoveSpacer(outputWithSpacer);
  }
}
